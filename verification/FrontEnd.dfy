/** ADD_CHAR_TO_BLOCK, add_pair_to_block and flush_RL: the run-length front end of bzlib.c. */
module FrontEnd {
  import opened Base
  import opened RunLength
  import opened BzCrc
  import opened MtfEncoder
  import opened Runs

  const NO_CHAR := 256

  /** The pending run: no character, or 1..255 copies of one. */
  predicate RunOk(ch: nat, len: nat) {
    (ch == NO_CHAR && len == 0) || (ch < NO_CHAR && 1 <= len <= 255)
  }

  function RunBytes(ch: nat, len: nat): seq<byte> {
    if ch < 256 then Repeat<byte>(ch, len) else []
  }

  /** isempty_RL. */
  predicate EmptyRun(ch: nat, len: nat) {
    !(ch < 256 && len > 0)
  }

  /** A block under construction: readable so far, every byte marked, checksum of what it stands for. */
  ghost predicate Building(block: seq<byte>, inUse: seq<bool>, crc: bv32) {
    Complete(block) && Marks(inUse, block) && crc == Running(Expand(block))
  }

  /** The pending run may be appended to the block without being misread. */
  ghost predicate Pending(block: seq<byte>, ch: nat, len: nat) {
    RunOk(ch, len) && (ch < 256 ==> MayStart(StateAfter(block), ch))
  }

  lemma {:induction false} RunningRepeat(s: seq<byte>, c: byte, n: nat)
    ensures Running(s + Repeat<byte>(c, n + 1)) == Update(Running(s + Repeat<byte>(c, n)), c)
  {
    assert s + Repeat<byte>(c, n + 1) == (s + Repeat<byte>(c, n)) + [c];
    RunningPush(s + Repeat<byte>(c, n), c);
  }

  /** The checksum loop of add_pair_to_block. */
  method UpdateRun(crc0: bv32, c: byte, n: nat, ghost s: seq<byte>) returns (crc: bv32)
    requires crc0 == Running(s)
    ensures crc == Running(s + Repeat<byte>(c, n))
  {
    hide Running, Update;
    crc := crc0;
    assert s + Repeat<byte>(c, 0) == s;
    var i := 0;
    while i < n
      invariant 0 <= i <= n && crc == Running(s + Repeat<byte>(c, i))
    {
      RunningRepeat(s, c, i);
      crc := Update(crc, c);
      i := i + 1;
    }
  }

  /** The five forms add_pair_to_block appends. */
  method AppendPair(block: seq<byte>, ch: byte, len: nat) returns (r: seq<byte>)
    requires 1 <= len <= 255
    ensures r == block + Pair(ch, len)
  {
    if len == 1 {
      r := block + [ch];
    } else if len == 2 {
      r := block + [ch, ch];
    } else if len == 3 {
      r := block + [ch, ch, ch];
    } else {
      r := block + [ch, ch, ch, ch] + [len - 4];
    }
  }

  function MarkPair(inUse: seq<bool>, ch: byte, len: nat): (r: seq<bool>)
    requires |inUse| == 256 && 1 <= len <= 255
    ensures |r| == 256
  {
    var m := inUse[ch := true];
    if len < 4 then m else m[len - 4 := true]
  }

  lemma PairMarked(block: seq<byte>, inUse: seq<bool>, ch: byte, len: nat)
    requires Marks(inUse, block) && 1 <= len <= 255
    ensures Marks(MarkPair(inUse, ch, len), block + Pair(ch, len))
  {
  }

  /** Appending the pending run extends what the block stands for by exactly that run. */
  lemma PairAppended(block: seq<byte>, inUse: seq<bool>, crc: bv32, ch: byte, len: nat)
    requires Building(block, inUse, crc) && Pending(block, ch, len)
    ensures Building(block + Pair(ch, len), MarkPair(inUse, ch, len), Running(Expand(block) + Repeat<byte>(ch, len)))
    ensures Expand(block + Pair(ch, len)) == Expand(block) + Repeat<byte>(ch, len)
    ensures forall c: byte :: c != ch || len == 255 ==> MayStart(StateAfter(block + Pair(ch, len)), c)
  {
    hide Running, Expand, Marks;
    PushPair(block, ch, len);
    PairMarked(block, inUse, ch, len);
  }

  lemma RunPush(x: seq<byte>, c: byte, n: nat)
    ensures x + Repeat<byte>(c, n + 1) == x + Repeat<byte>(c, n) + [c] && x + Repeat<byte>(c, 1) == x + [c]
  {
  }

  /** The run being read, if there is one. */
  function PendingRun(ch: nat, len: nat): (r: seq<Stretch>)
    ensures |r| <= 1
  {
    if ch < 256 && 1 <= len <= 255 then [Stretch(ch, len)] else []
  }

  /** The block is the code of runs that end only where they must, and so does the run being read. */
  ghost predicate CutInRuns(block: seq<byte>, runs: seq<Stretch>, ch: nat, len: nat) {
    block == CodedRuns(runs) && Maximal(runs + PendingRun(ch, len))
  }

  lemma NewRun(runs: seq<Stretch>, ch: byte, len: nat, c: byte)
    requires 1 <= len <= 255 && Maximal(runs + PendingRun(ch, len)) && (c != ch || len == 255)
    ensures runs + PendingRun(ch, len) == runs + [Stretch(ch, len)]
    ensures Maximal(runs + [Stretch(ch, len)] + PendingRun(c, 1))
    ensures CodedRuns(runs + [Stretch(ch, len)]) == CodedRuns(runs) + Pair(ch, len)
  {
    RunsPush(runs, Stretch(ch, len));
    var all := runs + [Stretch(ch, len)];
    MaximalPush(all, Stretch(c, 1));
  }

  lemma LongerRun(runs: seq<Stretch>, ch: byte, len: nat)
    requires 1 <= len < 255 && Maximal(runs + PendingRun(ch, len))
    ensures Maximal(runs + PendingRun(ch, len + 1))
  {
    MaximalPop(runs, Stretch(ch, len));
    MaximalPush(runs, Stretch(ch, len + 1));
  }

  lemma FirstRun(c: byte)
    ensures Maximal([] + PendingRun(c, 1)) && CodedRuns([]) == []
  {
  }

  /** EState's fields of the front end. */
  class RunCoder {
    var block: seq<byte>     // block[0..nblock]
    var inUse: seq<bool>
    var blockCRC: bv32
    var inCh: nat            // state_in_ch
    var inLen: nat           // state_in_len
    ghost var runs: seq<Stretch>

    ghost predicate Valid()
      reads this
    {
      Building(block, inUse, blockCRC) && Pending(block, inCh, inLen) && CutInRuns(block, runs, inCh, inLen)
    }

    /** Everything taken in since the block was started, and the run carried into it. */
    ghost function Taken(): seq<byte>
      reads this
    {
      Expand(block) + RunBytes(inCh, inLen)
    }

    constructor ()
      ensures Valid() && Taken() == [] && block == [] && inCh == NO_CHAR && runs == []
    {
      block, inUse, blockCRC, inCh, inLen, runs := [], seq(256, _ => false), 0xffff_ffff, NO_CHAR, 0, [];
    }

    /** The block part of prepare_new_block: the pending run survives. */
    method StartBlock()
      requires RunOk(inCh, inLen)
      modifies this
      ensures Valid() && block == [] && Taken() == RunBytes(inCh, inLen) && inCh == old(inCh) && inLen == old(inLen)
      ensures runs == []
    {
      block, inUse, blockCRC, runs := [], seq(256, _ => false), 0xffff_ffff, [];
      assert [] + RunBytes(inCh, inLen) == RunBytes(inCh, inLen);
    }

    /** add_pair_to_block. */
    method AddPair()
      requires Valid() && inCh < 256
      modifies this`block, this`inUse, this`blockCRC
      ensures Building(block, inUse, blockCRC) && Expand(block) == old(Taken())
      ensures block == old(block) + Pair(inCh, inLen)
      ensures forall c: byte :: c != inCh || inLen == 255 ==> MayStart(StateAfter(block), c)
    {
      hide Running, Expand, Building, StateAfter;
      ghost var b := block;
      BuildingParts(block, inUse, blockCRC);
      PairAppended(block, inUse, blockCRC, inCh, inLen);
      blockCRC := UpdateRun(blockCRC, inCh, inLen, Expand(block));
      inUse := inUse[inCh := true];
      if inLen >= 4 {
        inUse := inUse[inLen - 4 := true];
      }
      block := AppendPair(block, inCh, inLen);
    }

    lemma BuildingParts(block: seq<byte>, inUse: seq<bool>, crc: bv32)
      requires Building(block, inUse, crc)
      ensures crc == Running(Expand(block)) && |inUse| == 256
    {
    }

    /** flush_RL. */
    method Flush()
      requires Valid()
      modifies this
      ensures Valid() && Expand(block) == old(Taken()) == Taken() && inCh == NO_CHAR && |block| <= |old(block)| + 5
      ensures runs == old(runs + PendingRun(inCh, inLen))
    {
      hide Running, Expand, Building, StateAfter, Maximal, CodedRuns;
      assert runs + [] == runs;
      if inCh < 256 {
        RunsPush(runs, Stretch(inCh, inLen));
        AddPair();
        runs := runs + PendingRun(inCh, inLen);
        assert runs + [] == runs;
      } else {
        assert Expand(block) + [] == Expand(block);
      }
      inCh, inLen := NO_CHAR, 0;
      assert Expand(block) + [] == Expand(block);
    }

    static lemma EmptyRuns(runs: seq<Stretch>, ch: nat, len: nat)
      requires CutInRuns([], runs, ch, len)
      ensures runs == []
    {
    }

    lemma EmptyStart(c: byte)
      ensures MayStart(StateAfter([]), c)
    {
    }

    /** ADD_CHAR_TO_BLOCK. No run is pending only at the start of a block. */
    method AddChar(c: byte)
      requires Valid() && (inCh == NO_CHAR ==> block == [])
      modifies this
      ensures Valid() && Taken() == old(Taken()) + [c] && |block| <= |old(block)| + 5 && inCh < 256
      ensures block == old(block) ==> runs == old(runs) && (old(inCh) < 256 ==> inCh == old(inCh))
      ensures block != old(block) ==> runs == old(runs + PendingRun(inCh, inLen))
    {
      hide Running, Expand, Building, StateAfter, Maximal, CodedRuns;
      RunPush(Expand(block), c, inLen);
      ghost var more := runs;
      if inCh < 256 && (c != inCh || inLen == 255) {
        NewRun(runs, inCh, inLen, c);
        more := runs + [Stretch(inCh, inLen)];
      } else if inCh < 256 {
        LongerRun(runs, inCh, inLen);
      }
      if c != inCh && inLen == 1 {
        AddSingle();
        RunPush(Expand(block), c, 0);
        inCh := c;
      } else if c != inCh || inLen == 255 {
        if inCh < 256 {
          AddPair();
        } else {
          EmptyStart(c);
          FirstRun(c);
          EmptyRuns(runs, inCh, inLen);
          assert Expand(block) + [] == Expand(block);
        }
        RunPush(Expand(block), c, 0);
        inCh, inLen := c, 1;
      } else {
        inLen := inLen + 1;
      }
      runs := more;
    }

    /** The fast track of ADD_CHAR_TO_BLOCK: a run of one. */
    method AddSingle()
      requires Valid() && inCh < 256 && inLen == 1
      modifies this`block, this`inUse, this`blockCRC
      ensures Building(block, inUse, blockCRC) && Expand(block) == old(Taken()) && block == old(block) + Pair(inCh, 1)
      ensures forall c: byte :: c != inCh ==> MayStart(StateAfter(block), c)
    {
      hide Expand, Building, StateAfter, Running;
      BuildingParts(block, inUse, blockCRC);
      PairAppended(block, inUse, blockCRC, inCh, 1);
      SingleUpdate(Expand(block), inCh);
      blockCRC := Update(blockCRC, inCh);
      inUse := inUse[inCh := true];
      block := block + [inCh];
    }

    lemma SingleUpdate(s: seq<byte>, c: byte)
      ensures Running(s + Repeat<byte>(c, 1)) == Update(Running(s), c) && Pair(c, 1) == [c]
    {
      assert s + Repeat<byte>(c, 1) == s + [c];
      RunningPush(s, c);
    }
  }
}
