/** GET_BITS: the bit register, fed from the caller's input a byte at a time. */
module BitReading {
  import opened Base
  import opened BitString
  import opened BitIO
  import opened BlockReader

  /** No byte is loaded before it is needed: fewer than eight bits wait, or fewer than the request at hand wants. */
  ghost predicate Lean(p: Phase, live: Bits) {
    |live| < 8 || |live| < Need(p)
  }

  class BitReader {
    var bsBuff: nat
    var bsLive: nat
    ghost var live: Bits

    ghost predicate Valid()
      reads this
    {
      |live| == bsLive && bsLive <= 31 && Keeps(bsBuff, live)
    }

    constructor ()
      ensures Valid() && live == []
    {
      bsBuff, bsLive, live := 0, 0, [];
    }

    method Load(c: byte)
      requires Valid() && bsLive <= 23
      modifies this
      ensures Valid() && bsLive == old(bsLive) + 8 && live == old(live) + ToBits(c, 8)
    {
      hide Keeps, ToBits;
      KeepsLoad(bsBuff, live, c);
      bsBuff := (bsBuff * 256 + c) % 4294967296;
      bsLive := bsLive + 8;
      live := live + ToBits(c, 8);
    }

    method Take(n: nat) returns (v: nat)
      requires Valid() && n <= bsLive
      modifies this
      ensures Valid() && v == ToNat(old(live)[..n]) && live == old(live)[n..]
    {
      hide Keeps, ToNat, Pow2;
      KeepsTake(bsBuff, live, n);
      v := bsBuff / Pow2(bsLive - n) % Pow2(n);
      bsLive := bsLive - n;
      live := live[n..];
    }

    /** GET_BITS(n) from input[pos..]: the value, or `ok` false when the input ends first; nothing is lost. */
    method GetBits(n: nat, input: seq<byte>, pos: nat) returns (ok: bool, v: nat, pos': nat)
      requires Valid() && 0 < n <= 24 && pos <= |input|
      modifies this
      ensures Valid() && pos <= pos' <= |input|
      ensures var all := old(live) + BytesToBits(input[pos..pos']);
        if ok then n <= |all| && v == ToNat(all[..n]) && live == all[n..]
        else pos' == |input| && live == all && |all| < n
      ensures ok ==> if |old(live)| < n then |live| < 8 else pos' == pos
    {
      hide Keeps, BytesToBits, ToBits, ToNat;
      pos', v, ok := pos, 0, true;
      NoBits(0);
      assert input[pos..pos] == [] && live + [] == live;
      while bsLive < n
        invariant Valid() && pos <= pos' <= |input| && live == old(live) + BytesToBits(input[pos..pos'])
        invariant if |old(live)| < n then |live| < n + 8 else pos' == pos
        decreases |input| - pos'
      {
        if pos' == |input| {
          ok := false;
          return;
        }
        NextByte(input, pos, pos');
        assert old(live) + BytesToBits(input[pos..pos']) + ToBits(input[pos'], 8)
            == old(live) + (BytesToBits(input[pos..pos']) + ToBits(input[pos'], 8));
        Load(input[pos']);
        pos' := pos' + 1;
      }
      v := Take(n);
    }

    lemma NextByte(input: seq<byte>, pos: nat, pos': nat)
      requires pos <= pos' < |input|
      ensures BytesToBits(input[pos..pos' + 1]) == BytesToBits(input[pos..pos']) + ToBits(input[pos'], 8)
    {
      assert input[pos..pos' + 1][..pos' - pos] == input[pos..pos'];
    }
  }

  /** The bits not yet used: those in the register, then the rest of the input. */
  lemma SplitRest(live: Bits, input: seq<byte>, pos: nat, pos': nat)
    requires pos <= pos' <= |input|
    ensures live + BytesToBits(input[pos..]) == live + BytesToBits(input[pos..pos']) + BytesToBits(input[pos'..])
  {
    BytesConcat(input[pos..pos'], input[pos'..]);
    assert input[pos..] == input[pos..pos'] + input[pos'..];
  }

  lemma RunOne(p: Phase, all: Bits, rest: Bits)
    requires 0 < Need(p) <= |all|
    ensures Run(p, all + rest) == Run(Step(p, ToNat(all[..Need(p)])), all[Need(p)..] + rest)
  {
    hide Step, Need, ToNat;
    var n := Need(p);
    assert (all + rest)[..n] == all[..n] && (all + rest)[n..] == all[n..] + rest;
  }

  lemma RunStuck(p: Phase, b: Bits)
    requires Need(p) == 0 || |b| < Need(p)
    ensures Run(p, b) == (p, b)
  {
  }

  /** All bits not yet used. */
  ghost function Unused(br: BitReader, input: seq<byte>, pos: nat): Bits
    requires pos <= |input|
    reads br
  {
    br.live + BytesToBits(input[pos..])
  }
}
