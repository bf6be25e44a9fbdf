/** unRLE_obuf_to_output_FAST and _SMALL: resumable delivery of a decoded block. */
module BlockOutput {
  import opened Base
  import opened Radix
  import opened InverseBwt
  import opened BlockVectors
  import opened RunLength
  import BzCrc

  /** A run of `m` equal characters of the block starting at `i`. */
  ghost predicate RunAt(block: seq<byte>, i: nat, m: nat) {
    0 < m && i + m <= |block| && forall k :: i <= k < i + m ==> block[k] == block[i]
  }

  /** Position `i` is where the decoder begins a new run. */
  ghost predicate AtRunStart(block: seq<byte>, i: nat) {
    i == |block| || (i < |block| && MayStart(StateAfter(block[..i]), block[i]))
  }

  lemma RunExpands(block: seq<byte>, i: nat, m: nat)
    requires RunAt(block, i, m) && AtRunStart(block, i) && m <= 4
    ensures Expand(block[..i + m]) == Expand(block[..i]) + Repeat<byte>(block[i], m)
    ensures StateAfter(block[..i + m]) == if m == 4 then Full(block[i]) else Run(block[i], m)
  {
    assert block[..i + m] == block[..i] + Repeat<byte>(block[i], m);
    PushRepeat(block[..i], block[i], m);
  }

  /** A run of one to three ends at the end of the block or before a different character. */
  lemma ShortRun(block: seq<byte>, i: nat, m: nat)
    requires RunAt(block, i, m) && AtRunStart(block, i) && m <= 3
    requires i + m < |block| ==> block[i + m] != block[i]
    ensures Expand(block[..i + m]) == Expand(block[..i]) + Repeat<byte>(block[i], m)
    ensures AtRunStart(block, i + m) && !StateAfter(block[..i + m]).Full?
  {
    RunExpands(block, i, m);
  }

  /** Four equal characters are followed by their count. */
  lemma LongRun(block: seq<byte>, i: nat)
    requires RunAt(block, i, 4) && AtRunStart(block, i) && i + 4 < |block|
    ensures Expand(block[..i + 5]) == Expand(block[..i]) + Repeat<byte>(block[i], block[i + 4] as int + 4)
    ensures StateAfter(block[..i + 5]).Fresh?
  {
    hide Expand, StateAfter;
    RunExpands(block, i, 4);
    ExpandAt(block, i + 4);
    RepeatAdd(Expand(block[..i]), block[i], 4, block[i + 4]);
  }

  /** At the end of the block the count is missing; a reader that goes on takes `g` for it. */
  lemma CutRun(block: seq<byte>, i: nat, g: byte)
    requires RunAt(block, i, 4) && AtRunStart(block, i) && i + 4 == |block|
    ensures Expand(block + [g]) == Expand(block[..i]) + Repeat<byte>(block[i], g as int + 4) && !Complete(block)
  {
    hide Expand, StateAfter;
    RunExpands(block, i, 4);
    assert block[..i + 4] == block;
    ExpandPush(block, g);
    RepeatAdd(Expand(block[..i]), block[i], 4, g);
  }

  /** What a reader that has used up `used` characters, the one in k0 included, has behind it. */
  ghost predicate Behind(block: seq<byte>, g: byte, used: nat, text: seq<byte>) {
    && 1 <= used <= |block| + 2
    && if used == |block| + 2 then !Complete(block) && text == Expand(block + [g])
       else
         AtRunStart(block, used - 1) && text == Expand(block[..used - 1]) && (used == |block| + 1 ==> Complete(block))
  }

  /** A run read at `i` by NextRun advances the expansion by exactly that run. */
  lemma RunDelivers(block: seq<byte>, g: byte, i: nat, outLen: nat, used: nat)
    requires AtRunStart(block, i) && i < |block| && outLen > 0
    requires outLen < 4 ==> used == i + outLen + 1 && RunAt(block, i, outLen)
    requires outLen < 4 ==> i + outLen < |block| ==> block[i + outLen] != block[i]
    requires outLen >= 4 ==> used == i + 6 && RunAt(block, i, 4)
    requires outLen >= 4 ==> outLen == (if i + 4 < |block| then block[i + 4] else g) as int + 4
    ensures used >= i + 2 && Behind(block, g, used, Expand(block[..i]) + Repeat<byte>(block[i], outLen))
  {
    hide Expand, StateAfter;
    if outLen < 4 {
      ShortRun(block, i, outLen);
    } else if i + 4 < |block| {
      LongRun(block, i);
    } else {
      CutRun(block, i, g);
    }
    assert block[..|block|] == block;
  }

  /** All that a block hands out before its end is reported, good or cut off. */
  ghost function TextOf(block: seq<byte>, g: byte): seq<byte> {
    if Complete(block) then Expand(block) else Expand(block + [g])
  }

  lemma BehindPrefix(block: seq<byte>, g: byte, used: nat, text: seq<byte>)
    requires Behind(block, g, used, text)
    ensures text <= TextOf(block, g) && (used >= |block| + 1 ==> text == TextOf(block, g))
  {
    hide Expand, StateAfter;
    ExpandPush(block, g);
    if used <= |block| + 1 {
      ExpandSplit(block, used - 1);
      assert block[..|block|] == block;
    }
  }

  /** Handing out one character of a pending run. */
  lemma PutOne(delivered: seq<byte>, c: byte, n: nat)
    requires n > 0
    ensures delivered + [c] + Repeat<byte>(c, n - 1) == delivered + Repeat<byte>(c, n)
    ensures BzCrc.Running(delivered + [c]) == BzCrc.Update(BzCrc.Running(delivered), c)
  {
    BzCrc.RunningPush(delivered, c);
  }

  lemma {:induction false} ExpandSplit(b: seq<byte>, i: nat)
    requires i <= |b|
    ensures Expand(b[..i]) <= Expand(b)
    decreases |b| - i
  {
    hide StateAfter;
    if i < |b| {
      ExpandAt(b, i);
      ExpandSplit(b, i + 1);
    } else {
      assert b[..i] == b;
    }
  }

  /** The tables one block leaves behind for delivery: either FAST's or SMALL's are meaningful. */
  datatype Tables = Fast(tt: seq<int>) | Small(ll16: seq<int>, ll4: seq<int>, cftab: seq<int>)

  /** The tables walk `t`, the inverse vector of last column `l`, from `o`; `path` is SMALL's reversed cycle. */
  ghost predicate TablesFor(tables: Tables, l: seq<byte>, t: seq<int>, o: nat, path: seq<int>) {
    && o < |l| && InverseVector(l, t) && SelfMap(t)
    && match tables
       case Fast(tt) => FastHolds(l, t, tt)
       case Small(ll16, ll4, cftab) =>
         CellsOk(ll16, ll4, |l|) && Reversed(l, o, path, Cells(ll16, ll4, |l|)) && Cumulative(l, cftab)
  }

  /** tPos before the k-th character is fetched. */
  ghost function PosAt(tables: Tables, t: seq<int>, o: nat, k: nat): (q: nat)
    requires o < |t| && SelfMap(t)
    ensures q < |t|
  {
    Walk(t, o, if tables.Fast? then k + 1 else k)
  }

  lemma FastFetch(l: seq<byte>, t: seq<int>, tt: seq<int>, q: nat)
    requires q < |l| && FastHolds(l, t, tt)
    ensures tt[q] % 256 == l[q] && tt[q] / 256 == t[q]
  {
    assert tt[q] == Pack(l[q], t[q]);
  }

  lemma SmallFetch(l: seq<byte>, t: seq<int>, o: nat, path: seq<int>, ll: seq<int>, k: nat, c: nat)
    requires Reversed(l, o, path, ll) && InverseVector(l, t) && SelfMap(t) && InBucket(l, c, Walk(t, o, k))
    ensures c == OutChar(l, t, o, k) && ll[Walk(t, o, k)] == Walk(t, o, k + 1)
  {
    CycleWalk(l, o, path, ll, t, k);
    FirstColumnIsLast(l, t, Walk(t, o, k), c);
  }

  // ---- randomised blocks ----

  /** rNToGo and rTPos. */
  datatype Rand = Rand(toGo: int, pos: nat)

  /** BZ_RAND_UPD_MASK on the 512 entries of BZ2_rNums. */
  function RandNext(nums: seq<int>, r: Rand): (r': Rand)
    requires |nums| == 512 && r.pos < 512
    ensures r'.pos < 512
  {
    if r.toGo == 0 then Rand(nums[r.pos] - 1, if r.pos + 1 == 512 then 0 else r.pos + 1)
    else Rand(r.toGo - 1, r.pos)
  }

  function RandAfter(nums: seq<int>, k: nat): (r: Rand)
    requires |nums| == 512
    ensures r.pos < 512
  {
    if k == 0 then Rand(0, 0) else RandNext(nums, RandAfter(nums, k - 1))
  }

  /** c ^ BZ_RAND_MASK. */
  function Masked(c: byte, flip: bool): byte {
    if !flip then c else if c % 2 == 0 then c + 1 else c - 1
  }

  /** The k-th character a decoder reads, of the block and beyond its end: T walked from `o`, de-randomised. */
  ghost function CharAt(l: seq<byte>, t: seq<int>, o: nat, nums: seq<int>, randomised: bool, k: nat): byte
    requires o < |t| == |l| && SelfMap(t) && |nums| == 512
  {
    Masked(OutChar(l, t, o, k), randomised && RandAfter(nums, k + 1).toGo == 1)
  }

  class OutputState {
    const tables: Tables
    const limit: nat        // 100000 * blockSize100k
    const nblock: nat       // save_nblock
    const randomised: bool  // blockRandomised
    const nums: seq<int>    // BZ2_rNums
    var rand: Rand
    var tPos: nat
    var k0: byte
    var nblockUsed: nat
    var outCh: byte
    var outLen: nat
    var crc: bv32           // calculatedBlockCRC
    ghost const l: seq<byte>
    ghost const t: seq<int>
    ghost const o: nat
    ghost const path: seq<int>
    ghost const block: seq<byte>
    ghost var delivered: seq<byte>

    /** The block the walk spells: any column, any origin row. */
    ghost predicate Spells() {
      && nblock == |l| == |block| <= limit && TablesFor(tables, l, t, o, path) && |nums| == 512
      && (forall k :: 0 <= k < nblock ==> block[k] == CharAt(l, t, o, nums, randomised, k))
    }

    /** The character a reader meets that goes on past the end of the block. */
    ghost function Beyond(): byte
      requires Spells()
    {
      CharAt(l, t, o, nums, randomised, nblock)
    }

    /** tPos and the mask before the k-th character is fetched. */
    ghost predicate Before(k: nat)
      requires Spells()
      reads this`tPos, this`rand
    {
      tPos == PosAt(tables, t, o, k) && (randomised ==> rand == RandAfter(nums, k))
    }

    ghost predicate Valid()
      reads this
    {
      && Spells() && Before(nblockUsed)
      && (1 <= nblockUsed <= nblock ==> k0 == block[nblockUsed - 1])
      && Behind(block, Beyond(), nblockUsed, delivered + Repeat<byte>(outCh, outLen))
      && crc == BzCrc.Running(delivered)
    }

    /** End of BZ2_decompress: position the walk and fetch the first character. */
    constructor (tables: Tables, limit: nat, nblock: nat, origPtr: nat, randomised: bool, nums: seq<int>,
                 ghost l: seq<byte>, ghost t: seq<int>, ghost path: seq<int>, ghost block: seq<byte>)
      requires 0 < nblock == |l| == |block| <= limit && TablesFor(tables, l, t, origPtr, path) && |nums| == 512
      requires forall k :: 0 <= k < nblock ==> block[k] == CharAt(l, t, origPtr, nums, randomised, k)
      ensures Ready() && delivered == [] && this.block == block && this.l == l && this.t == t && this.o == origPtr
      ensures this.nums == nums && this.randomised == randomised && this.tables == tables
    {
      this.tables, this.limit, this.nblock, this.randomised, this.nums := tables, limit, nblock, randomised, nums;
      this.l, this.t, this.o, this.path, this.block := l, t, origPtr, path, block;
      outCh, outLen, crc, delivered := 0, 0, 0xffff_ffff, [];
      tPos := if tables.Fast? then tables.tt[origPtr] / 256 else origPtr;
      rand := Rand(0, 0);
      nblockUsed, k0 := 0, 0;
      new;
      FirstPos();
      k0 := Fetch();
      NothingBehind();
    }

    /** Where the walk starts. */
    lemma FirstPos()
      requires Spells() && tPos == if tables.Fast? then tables.tt[o] / 256 else o
      ensures tPos == PosAt(tables, t, o, 0)
    {
      assert Walk(t, o, 0) == o && Walk(t, o, 1) == t[o];
      if tables.Fast? {
        FastFetch(l, t, tables.tt, o);
      }
    }

    /** Nothing is delivered of a block whose first character was just fetched. */
    lemma NothingBehind()
      requires Spells() && |block| > 0 && delivered == [] && outLen == 0 && crc == 0xffff_ffff
      ensures Behind(block, Beyond(), 1, delivered + Repeat<byte>(outCh, outLen)) && crc == BzCrc.Running(delivered)
    {
      hide Spells;
      assert block[..0] == [] && delivered + Repeat<byte>(outCh, outLen) == [];
    }

    /** BZ_GET_FAST / BZ_GET_SMALL; the range check on tPos never reports corruption here. */
    method Get(ghost k: nat) returns (corrupt: bool, c: byte)
      requires Spells() && tPos == PosAt(tables, t, o, k)
      modifies this`tPos
      ensures !corrupt && c == OutChar(l, t, o, k) && tPos == PosAt(tables, t, o, k + 1)
    {
      hide CharAt;
      c := 0;
      corrupt := tPos >= limit;
      if corrupt {
        return;
      }
      match tables
      case Fast(tt) =>
        FastFetch(l, t, tt, tPos);
        c := tt[tPos] % 256;
        tPos := tt[tPos] / 256;
      case Small(ll16, ll4, cftab) =>
        var nb := IndexIntoF(tPos, cftab, l);
        SmallFetch(l, t, o, path, Cells(ll16, ll4, |l|), k, nb);
        c := nb;
        tPos := GetLL(ll16, ll4, tPos);
    }

    /** Fetch, unmask and count one character. */
    method Fetch() returns (c: byte)
      requires Spells() && Before(nblockUsed)
      modifies this`tPos, this`rand, this`nblockUsed
      ensures At(nblockUsed) && nblockUsed == old(nblockUsed) + 1
      ensures c == CharAt(l, t, o, nums, randomised, old(nblockUsed))
      ensures (old(nblockUsed) < nblock ==> c == block[old(nblockUsed)])
    {
      hide TablesFor, PosAt;
      InTables();
      var corrupt;
      corrupt, c := Get(nblockUsed);
      if randomised {
        rand := RandNext(nums, rand);
        c := Masked(c, rand.toGo == 1);
      }
      nblockUsed := nblockUsed + 1;
    }

    lemma InTables()
      requires Spells()
      ensures o < |l| == |t| && SelfMap(t)
    {
    }

    /** The walk is at character `k`. */
    ghost predicate At(k: nat)
      reads this`tPos, this`rand, this`nblockUsed
    {
      Spells() && nblockUsed == k && Before(k)
    }

    /** What NextRun leaves: the run that starts at `i`, and the character after it in k0. */
    ghost predicate RunRead(i: nat)
      reads this`outLen, this`outCh, this`k0, this`nblockUsed
    {
      && Spells() && i < |block| && outCh == block[i] && outLen > 0
      && if outLen < 4
         then nblockUsed == i + outLen + 1 && RunAt(block, i, outLen)
              && (i + outLen < |block| ==> block[i + outLen] != block[i] && k0 == block[i + outLen])
         else nblockUsed == i + 6 && RunAt(block, i, 4)
              && outLen == (if i + 4 < |block| then block[i + 4] else Beyond()) as int + 4
              && (i + 5 < |block| ==> k0 == block[i + 5])
    }

    /** The tail both variants share once two equal characters were seen at `i`. */
    method LongerRun(ghost i: nat)
      requires At(i + 2) && i + 1 < nblock && k0 == outCh == block[i] == block[i + 1]
      modifies this`tPos, this`rand, this`nblockUsed, this`k0, this`outLen
      ensures At(nblockUsed) && RunRead(i)
    {
      hide TablesFor, PosAt, CharAt, RandAfter;
      outLen := 2;
      var k1 := Fetch();
      if nblockUsed == nblock + 1 {
        return;
      }
      if k1 != k0 {
        k0 := k1;
        return;
      }
      outLen := 3;
      k1 := Fetch();
      if nblockUsed == nblock + 1 {
        return;
      }
      if k1 != k0 {
        k0 := k1;
        return;
      }
      CountedRun(i);
    }

    /** Four equal characters: the next is their count. */
    method CountedRun(ghost i: nat)
      requires At(i + 4) && i + 3 < nblock && k0 == outCh == block[i] && RunAt(block, i, 4)
      modifies this`tPos, this`rand, this`nblockUsed, this`k0, this`outLen
      ensures At(nblockUsed) && RunRead(i)
    {
      hide TablesFor, PosAt, CharAt, RandAfter;
      var k1 := Fetch();
      outLen := k1 as int + 4;
      k0 := Fetch();
    }

    /** Start the next run the way unRLE_obuf_to_output_FAST does: compare first, then test for the end. */
    method NextRunFast(ghost i: nat)
      requires At(i + 1) && i < nblock && k0 == block[i]
      modifies this`tPos, this`rand, this`nblockUsed, this`k0, this`outLen, this`outCh
      ensures At(nblockUsed) && RunRead(i)
    {
      hide TablesFor, PosAt, CharAt, RandAfter;
      outCh := k0;
      var k1 := Fetch();
      if k1 != k0 {
        k0 := k1;
        outLen := 1;
      } else if nblockUsed == nblock + 1 {
        outLen := 1;
      } else {
        LongerRun(i);
      }
    }

    /** Start the next run the way unRLE_obuf_to_output_SMALL does: test for the end first. */
    method NextRunSmall(ghost i: nat)
      requires At(i + 1) && i < nblock && k0 == block[i]
      modifies this`tPos, this`rand, this`nblockUsed, this`k0, this`outLen, this`outCh
      ensures At(nblockUsed) && RunRead(i)
    {
      hide TablesFor, PosAt, CharAt, RandAfter;
      outLen := 1;
      outCh := k0;
      var k1 := Fetch();
      if nblockUsed == nblock + 1 {
        return;
      }
      if k1 != k0 {
        k0 := k1;
      } else {
        LongerRun(i);
      }
    }

    /** Nothing is left to deliver. */
    predicate Done()
      reads this
    {
      nblockUsed == nblock + 1 && outLen == 0
    }

    lemma DoneMeansAll()
      requires Valid() && Done()
      ensures Complete(block) && delivered == Expand(block) && !crc == BzCrc.Checksum(Expand(block))
    {
      hide TablesFor, Expand, BzCrc.Running, PosAt, StateAfter;
      assert block[..nblock] == block;
      assert delivered + Repeat<byte>(outCh, 0) == delivered;
    }

    /** At every moment a prefix of the block's text was delivered. */
    lemma DeliveredPrefix()
      requires Valid()
      ensures delivered <= TextOf(block, Beyond())
    {
      hide TablesFor, TextOf, BzCrc.Running, PosAt, Expand, StateAfter;
      BehindPrefix(block, Beyond(), nblockUsed, delivered + Repeat<byte>(outCh, outLen));
    }

    /** The walk went past the end of the block, and everything read was delivered. */
    predicate CutOff()
      reads this
    {
      nblockUsed == nblock + 2 && outLen == 0
    }

    /** A block is found cut off only if it is, after all its text. */
    lemma CutOffMeansAll()
      requires Valid() && CutOff()
      ensures !Complete(block) && delivered == TextOf(block, Beyond())
    {
      hide TablesFor, BzCrc.Running, PosAt, Expand, StateAfter;
      assert delivered + Repeat<byte>(outCh, 0) == delivered;
    }

    method StartRun()
      requires Valid() && outLen == 0 && nblockUsed <= nblock
      modifies this`tPos, this`rand, this`nblockUsed, this`k0, this`outLen, this`outCh
      ensures Valid() && outLen > 0 && nblockUsed > old(nblockUsed)
    {
      hide TablesFor, BzCrc.Running, StateAfter, Expand, PosAt, CharAt, RandAfter;
      ghost var i := nblockUsed - 1;
      assert delivered + Repeat<byte>(outCh, 0) == delivered;
      if tables.Fast? && !randomised {
        NextRunFast(i);
      } else {
        NextRunSmall(i);
      }
      RunDelivers(block, Beyond(), i, outLen, nblockUsed);
    }

    /** Write one character of the pending run and fold it into the checksum. */
    method Put() returns (c: byte)
      requires Valid() && outLen > 0
      modifies this`outLen, this`crc, this`delivered
      ensures Valid() && outLen == old(outLen) - 1 && c == outCh && delivered == old(delivered) + [c]
    {
      hide Spells, Expand;
      PutOne(delivered, outCh, outLen);
      c := outCh;
      crc := BzCrc.Update(crc, c);
      outLen := outLen - 1;
      delivered := delivered + [c];
    }

    /** Write as much of the pending run as fits. */
    method FinishRun(room: nat) returns (out: seq<byte>)
      requires Valid()
      modifies this`outLen, this`crc, this`delivered
      ensures Valid() && delivered == old(delivered) + out && |out| <= room
      ensures |out| == room || outLen == 0
      ensures old(outLen) > 0 && room > 0 ==> |out| > 0
    {
      hide Spells, Expand, BzCrc.Running;
      out := [];
      while |out| < room && outLen > 0
        invariant Valid() && delivered == old(delivered) + out && |out| <= room
        invariant outLen + |out| == old(outLen)
        decreases outLen
      {
        var c := Put();
        out := out + [c];
      }
    }

    /** The variant that keeps its state in locals: FAST on a block that is not randomised. */
    predicate OnLocals() {
      tables.Fast? && !randomised
    }

    /** What holds between two calls. */
    ghost predicate Ready()
      reads this
    {
      Valid() && (OnLocals() ==> !CutOff())
    }

    /** A return that skips the write-back of the locals: every field is as it was when the call began. */
    method Forget(rand: Rand, tPos: nat, k0: byte, nblockUsed: nat, outCh: byte, outLen: nat, crc: bv32,
                  ghost delivered: seq<byte>)
      modifies this`tPos, this`rand, this`nblockUsed, this`k0, this`outLen, this`outCh, this`crc, this`delivered
      ensures this.rand == rand && this.tPos == tPos && this.k0 == k0 && this.nblockUsed == nblockUsed
      ensures this.outCh == outCh && this.outLen == outLen && this.crc == crc && this.delivered == delivered
    {
      this.rand, this.tPos, this.k0, this.nblockUsed := rand, tPos, k0, nblockUsed;
      this.outCh, this.outLen, this.crc, this.delivered := outCh, outLen, crc, delivered;
    }

    /**
     * One call of unRLE_obuf_to_output with `avail` bytes of room. FAST looks for
     * room only while a run is pending; SMALL, and both on a randomised block, look
     * before anything else. Either way the bytes written continue what was delivered so far, and corruption is
     * reported only for a block cut off between four equal characters and their count, after all its text.
     * `counted` is by how much next_out and avail_out moved. Where FAST finds the corruption it returns before
     * it stores its locals: nothing of what that call wrote is counted, and the state is the one before it.
     */
    method Drain(avail: nat) returns (corrupt: bool, out: seq<byte>, counted: nat)
      requires Ready()
      modifies this`tPos, this`rand, this`nblockUsed, this`k0, this`outLen, this`outCh, this`crc, this`delivered
      ensures Ready() && |out| <= avail && counted == if corrupt && OnLocals() then 0 else |out|
      ensures delivered == old(delivered) + out[..counted]
      ensures corrupt ==> !Complete(block) && old(delivered) + out == TextOf(block, Beyond())
      ensures corrupt && OnLocals() ==>
        && out != [] && rand == old(rand) && tPos == old(tPos) && k0 == old(k0) && nblockUsed == old(nblockUsed)
        && outCh == old(outCh) && outLen == old(outLen) && crc == old(crc)
      ensures !corrupt ==> |out| == avail || Done()
    {
      hide TablesFor, Expand, BzCrc.Running, PosAt, CharAt, RandAfter, TextOf;
      corrupt, out := false, [];
      var rand0, tPos0, k00, used0, ch0, len0, crc0 := rand, tPos, k0, nblockUsed, outCh, outLen, crc;
      while true
        invariant Valid() && delivered == old(delivered) + out && |out| <= avail
        invariant OnLocals() && nblockUsed > nblock + 1 ==> outLen > 0 || |out| > 0
        decreases nblock + 1 - nblockUsed
      {
        var more := FinishRun(avail - |out|);
        out := out + more;
        if outLen > 0 || (!OnLocals() && |out| == avail) {
          break;
        }
        if nblockUsed > nblock + 1 {
          corrupt := true;
          CutOffMeansAll();
          break;
        }
        if nblockUsed == nblock + 1 {
          break;
        }
        StartRun();
      }
      counted := |out|;
      assert out[..counted] == out;
      if corrupt && OnLocals() {
        counted := 0;
        Forget(rand0, tPos0, k00, used0, ch0, len0, crc0, old(delivered));
        assert delivered == old(delivered) + out[..0];
      }
    }
  }
}
