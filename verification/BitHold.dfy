/** hold and bits of inflate.c: the first bit of the input is the lowest. */
module BitHold {
  import opened Base
  import opened BitIO
  import opened BitString
  import opened InflateLookup
  import opened LsbCode

  /** The bytes of the input as bits, the lowest of each byte first. */
  function InputBits(s: seq<byte>): (b: Bits)
    ensures |b| == 8 * |s|
  {
    if s == [] then [] else LsbBits(s[0], 8) + InputBits(s[1..])
  }

  lemma {:induction false} InputConcat(s: seq<byte>, t: seq<byte>)
    ensures InputBits(s + t) == InputBits(s) + InputBits(t)
  {
    hide LsbBits;
    if s == [] {
      assert s + t == t;
    } else {
      InputConcat(s[1..], t);
      assert (s + t)[0] == s[0] && (s + t)[1..] == s[1..] + t;
      Associate(LsbBits(s[0], 8), InputBits(s[1..]), InputBits(t));
    }
  }

  /** Cutting the bits at the front drops the low ones. */
  lemma LsbDrop(b: Bits, n: nat)
    requires n <= |b|
    ensures Pow2(n) > 0 && LsbNat(b[n..]) == LsbNat(b) / Pow2(n)
  {
    hide LsbNat, Pow2;
    assert b == b[..n] + b[n..];
    LsbConcat(b[..n], b[n..]);
    LsbLess(b[..n]);
    PowPositive(n);
    QuotientOf(LsbNat(b), Pow2(n), LsbNat(b[n..]), LsbNat(b[..n]));
  }

  lemma QuotientOf(x: nat, m: nat, q: nat, r: nat)
    requires m > 0 && r < m && x == r + m * q
    ensures x / m == q
  {
    DivModUnique(x, m, q, r);
  }

  /** Masking the register gives the bits there are, and zeros above them. */
  lemma LowBits(live: Bits, n: nat)
    ensures Pow2(n) > 0 && LsbNat(live) % Pow2(n) == LsbNat(Padded(live, n))
  {
    hide LsbNat, Pow2;
    PowPositive(n);
    if n <= |live| {
      LsbMod(live, n);
    } else {
      LsbZeros(live, n - |live|);
      LsbLess(live);
      Pow2Monotone(|live|, n);
      DivModUnique(LsbNat(live), Pow2(n), 0, LsbNat(live));
    }
  }

  /** BITS(i + n) >> i. */
  lemma PeekIs(live: Bits, i: nat, n: nat)
    ensures Pow2(i + n) > 0 && Pow2(i) > 0 && LsbNat(live) % Pow2(i + n) / Pow2(i) == Peek(live, i, n)
  {
    hide LsbNat, Pow2, Padded;
    LowBits(live, i + n);
    LsbDrop(Padded(live, i + n), i);
  }

  lemma HoldFits(live: Bits)
    requires |live| <= 32
    ensures LsbNat(live) < 4294967296
  {
    hide LsbNat, Pow2;
    LsbLess(live);
    Pow2Values();
    Pow2Monotone(|live|, 32);
  }

  /** The next byte above what is held. */
  lemma PullIs(live: Bits, c: byte)
    ensures LsbNat(live + LsbBits(c, 8)) == LsbNat(live) + Pow2(|live|) * c
  {
    hide LsbNat, Pow2, LsbBits;
    Pow2Values();
    LsbConcat(live, LsbBits(c, 8));
    LsbRoundTrip(c, 8);
  }

  class Hold {
    var hold: nat
    var bits: nat
    ghost var live: Bits

    ghost predicate Valid()
      reads this
    {
      |live| == bits <= 32 && hold == LsbNat(live)
    }

    constructor ()
      ensures Valid() && live == [] && bits == 0
    {
      hold, bits, live := 0, 0, [];
    }

    /** All bits not yet used: those held, then the rest of the input. */
    ghost function Unread(input: seq<byte>, pos: nat): Bits
      requires pos <= |input|
      reads this
    {
      live + InputBits(input[pos..])
    }

    /** hold fits an unsigned long of 32 bits. */
    lemma Fits()
      requires Valid()
      ensures hold < 4294967296
    {
      hide LsbNat;
      HoldFits(live);
    }

    /** PULLBYTE, with input at hand. */
    method Pull(input: seq<byte>, pos: nat) returns (pos': nat)
      requires Valid() && bits <= 24 && pos < |input|
      modifies this
      ensures Valid() && pos' == pos + 1 && bits == old(bits) + 8
      ensures live == old(live) + LsbBits(input[pos], 8) && Unread(input, pos') == old(Unread(input, pos))
    {
      hide LsbNat, Pow2, LsbBits;
      PullIs(live, input[pos]);
      hold := hold + Pow2(bits) * input[pos];
      bits := bits + 8;
      ghost var was := live;
      live := live + LsbBits(input[pos], 8);
      pos' := pos + 1;
      assert input[pos..][0] == input[pos] && input[pos..][1..] == input[pos'..];
      Associate(was, LsbBits(input[pos], 8), InputBits(input[pos'..]));
    }

    /** BITS(i + n) >> i. */
    method Bits(i: nat, n: nat) returns (v: nat)
      requires Valid()
      ensures v == Peek(live, i, n)
    {
      hide LsbNat, Pow2, Peek;
      PeekIs(live, i, n);
      v := hold % Pow2(i + n) / Pow2(i);
    }

    /** DROPBITS. */
    method Drop(n: nat, ghost input: seq<byte>, ghost pos: nat)
      requires Valid() && n <= bits && pos <= |input|
      modifies this
      ensures Valid() && bits == old(bits) - n && live == old(live)[n..]
      ensures Unread(input, pos) == old(Unread(input, pos))[n..]
    {
      hide LsbNat, Pow2;
      LsbDrop(live, n);
      hold := hold / Pow2(n);
      bits := bits - n;
      ghost var was := live;
      live := live[n..];
      assert (was + InputBits(input[pos..]))[n..] == was[n..] + InputBits(input[pos..]);
    }

    /** NEEDBITS: `ok` unless the input ends first; no byte is pulled that is not needed. */
    method NeedBits(n: nat, input: seq<byte>, pos: nat) returns (ok: bool, pos': nat)
      requires Valid() && n <= 24 && pos <= |input|
      modifies this
      ensures Valid() && pos <= pos' <= |input| && Unread(input, pos') == old(Unread(input, pos))
      ensures ok == (bits >= n) && (!ok ==> pos' == |input|)
      ensures if old(bits) >= n then bits == old(bits) && pos' == pos else bits < n + 8
    {
      hide LsbNat;
      ok, pos' := true, pos;
      while bits < n
        invariant Valid() && pos <= pos' <= |input| && Unread(input, pos') == old(Unread(input, pos))
        invariant if old(bits) >= n then bits == old(bits) && pos' == pos else bits < n + 8
        decreases |input| - pos'
      {
        if pos' == |input| {
          ok := false;
          return;
        }
        pos' := Pull(input, pos');
      }
    }
  }
}
