/** The MSB-first bit writer of compress.c and the suspendable bit reader behind GET_BITS. */
module BitIO {
  import opened Base
  import opened BitString

  // ---- arithmetic of a 32-bit register ----

  function Zeros(n: nat): (z: Bits)
    ensures |z| == n && forall i :: 0 <= i < n ==> !z[i]
  {
    seq(n, _ => false)
  }

  lemma {:induction false} ToNatZeros(n: nat)
    ensures ToNat(Zeros(n)) == 0
  {
    if n > 0 {
      ToNatZeros(n - 1);
      assert Zeros(n)[..n - 1] == Zeros(n - 1);
    }
  }

  lemma DivModUnique(x: int, m: nat, q: int, r: int)
    requires m > 0 && 0 <= r < m && x == q * m + r
    ensures x / m == q && x % m == r
  {
    var d := x / m - q;
    assert d * m == r - x % m;
    AtLeastOne(d, m);
  }

  lemma AtLeastOne(d: int, m: nat)
    ensures (d > 0 ==> d * m >= m) && (d < 0 ==> d * m + m <= 0)
  {
  }

  /** Splitting a number made of two fields. */
  lemma SplitFields(a: Bits, b: Bits)
    ensures ToNat(a + b) / Pow2(|b|) == ToNat(a) && ToNat(a + b) % Pow2(|b|) == ToNat(b)
  {
    hide ToNat, Pow2;
    ToNatConcat(a, b);
    ToNatBound(b);
    DivModUnique(ToNat(a + b), Pow2(|b|), ToNat(a), ToNat(b));
  }

  // ---- bsW, bsFinishWrite ----

  /** The register holds `live` in its top bits, zeros below. */
  ghost predicate Holds(bsBuff: nat, live: Bits) {
    |live| <= 32 && bsBuff == ToNat(live + Zeros(32 - |live|))
  }

  /** x | (v << k), where the low bits of x that v can reach are clear. */
  function OrShifted(x: nat, v: nat, n: nat, k: nat): nat
    requires v < Pow2(n) && x % Pow2(n + k) == 0
  {
    x + v * Pow2(k)
  }

  lemma HoldsClear(bsBuff: nat, live: Bits)
    requires Holds(bsBuff, live)
    ensures bsBuff % Pow2(32 - |live|) == 0 && bsBuff == ToNat(live) * Pow2(32 - |live|)
  {
    hide ToNat, Pow2, Zeros;
    ShiftedUp(live, 32 - |live|);
    WholeMultiple(ToNat(live), Pow2(32 - |live|));
  }

  lemma ShiftedUp(a: Bits, k: nat)
    ensures ToNat(a + Zeros(k)) == ToNat(a) * Pow2(k)
  {
    hide ToNat, Pow2;
    ToNatZeros(k);
    ToNatConcat(a, Zeros(k));
  }

  lemma WholeMultiple(q: nat, m: nat)
    requires m > 0
    ensures q * m % m == 0
  {
    DivModUnique(q * m, m, q, 0);
  }

  lemma Rearrange(a: nat, v: nat, pn: nat, pk: nat)
    ensures (a * pn + v) * pk == a * (pn * pk) + v * pk
  {
  }

  /** OR-ing in an n-bit field below the live bits. */
  lemma HoldsMore(bsBuff: nat, live: Bits, v: nat, n: nat, k: nat)
    requires Holds(bsBuff, live) && v < Pow2(n) && |live| + n + k == 32
    ensures bsBuff % Pow2(n + k) == 0 && Holds(OrShifted(bsBuff, v, n, k), live + ToBits(v, n))
  {
    hide ToNat, Pow2;
    HoldsClear(bsBuff, live);
    assert 32 - |live| == n + k;
    var more := live + ToBits(v, n);
    ToNatConcat(more, Zeros(k));
    ToNatZeros(k);
    ToNatConcat(live, ToBits(v, n));
    BitsRoundTrip(v, n);
    Pow2Add(n, k);
    Rearrange(ToNat(live), v, Pow2(n), Pow2(k));
  }

  /** (UChar)(bsBuff >> 24) and bsBuff <<= 8, in 32 bits. */
  lemma HoldsShift(bsBuff: nat, live: Bits, padded: Bits)
    requires Holds(bsBuff, live) && padded == live + Zeros(32 - |live|)
    ensures bsBuff / 16777216 == ToNat(padded[..8]) < 256
    ensures bsBuff * 256 % 4294967296 == ToNat(padded[8..] + Zeros(8))
  {
    hide ToNat, Pow2;
    Pow2Values();
    var a, r := padded[..8], padded[8..];
    assert padded == a + r;
    SplitFields(a, r);
    ToNatConcat(r, Zeros(8));
    ToNatZeros(8);
    ToNatConcat(a, r);
    ToNatBound(a);
    ToNatBound(r);
    var x, y := ToNat(a), ToNat(r);
    assert bsBuff == x * 16777216 + y;
    DivModUnique(bsBuff * 256, 4294967296, x, y * 256);
  }

  lemma ToNatBound(b: Bits)
    ensures ToNat(b) < Pow2(|b|)
  {
  }

  lemma HoldsAfterShift(live: Bits)
    requires 8 <= |live| <= 32
    ensures (live + Zeros(32 - |live|))[..8] == live[..8]
    ensures (live + Zeros(32 - |live|))[8..] + Zeros(8) == live[8..] + Zeros(40 - |live|)
  {
  }

  /** What is left of a last, incomplete byte. */
  lemma HoldsLast(live: Bits)
    requires |live| < 8
    ensures (live + Zeros(32 - |live|))[..8] == live + Zeros(8 - |live|)
    ensures (live + Zeros(32 - |live|))[8..] + Zeros(8) == Zeros(32)
  {
  }

  lemma HoldsNothing(x: nat)
    requires x == ToNat(Zeros(32))
    ensures Holds(x, [])
  {
    assert [] + Zeros(32) == Zeros(32);
  }

  /** Zero bits that fill up the last byte. */
  function Padding(n: nat): (z: Bits)
    ensures (n + |z|) % 8 == 0 && |z| < 8
  {
    Zeros((8 - n % 8) % 8)
  }

  lemma SamePadding(m: nat, n: nat)
    requires m % 8 == n % 8
    ensures Padding(m) == Padding(n)
  {
  }

  class BitWriter {
    var zbits: seq<byte>     // zbits[0..numZ]
    var bsBuff: nat
    var bsLive: nat
    ghost var live: Bits

    ghost predicate Valid()
      reads this
    {
      |live| == bsLive && Holds(bsBuff, live)
    }

    /** Everything written so far. */
    ghost function Written(): Bits
      reads this
    {
      BytesToBits(zbits) + live
    }

    constructor ()
      ensures Valid() && Written() == [] && zbits == [] && bsLive == 0
    {
      zbits, bsBuff, bsLive, live := [], 0, 0, [];
      new;
      ToNatZeros(32);
      assert [] + Zeros(32) == Zeros(32);
    }

    /** Moves eight live bits into zbits. */
    method PutByte()
      requires Valid() && bsLive >= 8
      modifies this
      ensures Valid() && Written() == old(Written()) && bsLive == old(bsLive) - 8 && |zbits| == |old(zbits)| + 1
    {
      hide ToNat, BytesToBits;
      ghost var was := live;
      HoldsShift(bsBuff, live, live + Zeros(32 - |live|));
      HoldsAfterShift(live);
      zbits := zbits + [bsBuff / 16777216];
      bsBuff := bsBuff * 256 % 4294967296;
      bsLive := bsLive - 8;
      live := live[8..];
      NatRoundTrip(was[..8]);
      PushByte(old(zbits), zbits[|old(zbits)|], was);
    }

    lemma PushByte(z: seq<byte>, c: byte, was: Bits)
      requires |was| >= 8 && ToBits(c, 8) == was[..8]
      ensures BytesToBits(z + [c]) + was[8..] == BytesToBits(z) + was
    {
      assert (z + [c])[..|z|] == z;
      assert was == was[..8] + was[8..];
    }

    /** bsW: append the low `n` bits of `v`. */
    method Write(n: nat, v: nat)
      requires Valid() && n <= 24 && v < Pow2(n)
      modifies this
      ensures Valid() && Written() == old(Written()) + ToBits(v, n)
      ensures bsLive < 8 + n
    {
      hide Holds, BytesToBits, ToBits;
      while bsLive >= 8
        invariant Valid() && Written() == old(Written())
        decreases bsLive
      {
        PutByte();
      }
      HoldsMore(bsBuff, live, v, n, 32 - bsLive - n);
      bsBuff := OrShifted(bsBuff, v, n, 32 - bsLive - n);
      bsLive := bsLive + n;
      live := live + ToBits(v, n);
      assert BytesToBits(zbits) + live == old(Written()) + ToBits(v, n);
    }

    /** bsPutUChar. */
    method WriteByte(c: byte)
      requires Valid()
      modifies this
      ensures Valid() && Written() == old(Written()) + ToBits(c, 8)
    {
      hide ToBits;
      assert Pow2(8) == 256;
      Write(8, c);
    }

    /** bsPutUInt32. */
    method WriteWord(u: nat)
      requires Valid() && u < Pow2(32)
      modifies this
      ensures Valid() && Written() == old(Written()) + ToBits(u, 32)
    {
      hide Valid, Written, Pow2, ToBits;
      ghost var w := Written();
      WordSplits(u);
      WriteByte(u / 16777216 % 256);
      WriteByte(u / 65536 % 256);
      WriteByte(u / 256 % 256);
      WriteByte(u % 256);
      Regroup(w, ToBits(u / 16777216 % 256, 8), ToBits(u / 65536 % 256, 8), ToBits(u / 256 % 256, 8),
          ToBits(u % 256, 8));
    }

    lemma Regroup(w: Bits, a: Bits, b: Bits, c: Bits, d: Bits)
      ensures w + a + b + c + d == w + (a + b + c + d)
    {
    }

    /** bsFinishWrite: the last bits, filled up with zeros. */
    method Finish()
      requires Valid()
      modifies this
      ensures Valid() && bsLive == 0 && BytesToBits(zbits) == old(Written()) + Padding(|old(Written())|)
    {
      hide Holds, BytesToBits;
      while bsLive >= 8
        invariant Valid() && Written() == old(Written())
        decreases bsLive
      {
        PutByte();
      }
      if bsLive > 0 {
        PutLast();
      }
      assert live == [];
    }

    /** The last turn of bsFinishWrite's loop, where bsLive becomes negative: fewer than eight bits are live. */
    method PutLast()
      requires Valid() && 0 < bsLive < 8
      modifies this
      ensures Valid() && bsLive == 0 && live == []
      ensures BytesToBits(zbits) == old(Written()) + Padding(|old(Written())|)
    {
      hide ToNat, BytesToBits, Holds, Zeros, ToBits;
      ghost var was := live;
      HoldsShift(bsBuff, live, live + Zeros(32 - |live|));
      HoldsLast(live);
      zbits := zbits + [bsBuff / 16777216];
      bsBuff := bsBuff * 256 % 4294967296;
      bsLive := 0;
      live := [];
      HoldsNothing(bsBuff);
      NatRoundTrip(was + Zeros(8 - |was|));
      PushByte(old(zbits), zbits[|old(zbits)|], was + Zeros(8 - |was|));
      LastPadding(old(zbits), was, zbits);
    }

    lemma LastPadding(z: seq<byte>, was: Bits, z': seq<byte>)
      requires 0 < |was| < 8
      requires BytesToBits(z') + (was + Zeros(8 - |was|))[8..] == BytesToBits(z) + (was + Zeros(8 - |was|))
      ensures BytesToBits(z') == BytesToBits(z) + was + Padding(|BytesToBits(z) + was|)
    {
      hide BytesToBits;
      var w := was + Zeros(8 - |was|);
      assert w[8..] == [];
      assert BytesToBits(z') + [] == BytesToBits(z');
      assert BytesToBits(z) + was + Zeros(8 - |was|) == BytesToBits(z) + w;
      assert |BytesToBits(z) + was| % 8 == |was|;
    }
  }

  lemma WordSplits(u: nat)
    requires u < Pow2(32)
    ensures ToBits(u, 32) == ToBits(u / 16777216 % 256, 8) + ToBits(u / 65536 % 256, 8) + ToBits(u / 256 % 256, 8)
        + ToBits(u % 256, 8)
  {
    hide ToBits, Pow2;
    Pow2Values();
    var a, b, c := u / 256, u / 65536, u / 16777216;
    assert a / 256 == b && b / 256 == c && c < 256;
    WordSplit(u, 24);
    WordSplit(a, 16);
    WordSplit(b, 8);
  }

  lemma WordSplit(v: nat, n: nat)
    ensures ToBits(v, n + 8) == ToBits(v / 256, n) + ToBits(v % 256, 8)
  {
    Pow2Values();
    ToBitsConcat(v / 256, n, v % 256, 8);
  }

  // ---- GET_BITS ----

  /** The low |live| bits of the register are the bits read and not yet used; higher bits are stale. */
  ghost predicate Keeps(bsBuff: nat, live: Bits) {
    bsBuff % Pow2(|live|) == ToNat(live)
  }

  lemma ModOfMod(x: nat, m: nat, k: nat)
    requires m > 0 && k > 0
    ensures m * k > 0 && x % (m * k) % m == x % m
  {
    var q, r := x / (m * k), x % (m * k);
    assert x == q * (m * k) + r;
    ModShuffle(q, m, k, r);
    DivModUnique(x, m, q * k + r / m, r % m);
  }

  lemma ModShuffle(q: int, m: nat, k: nat, r: nat)
    requires m > 0
    ensures q * (m * k) + r == (q * k + r / m) * m + r % m
  {
    assert r == r / m * m + r % m;
    assert q * (m * k) == (q * k) * m;
    assert (q * k + r / m) * m == (q * k) * m + r / m * m;
  }

  /** Loading a byte: bsBuff = (bsBuff << 8) | c in 32 bits. */
  lemma KeepsLoad(bsBuff: nat, live: Bits, c: byte)
    requires Keeps(bsBuff, live) && |live| <= 24
    ensures Keeps((bsBuff * 256 + c) % 4294967296, live + ToBits(c, 8))
  {
    hide ToNat, Pow2, ToBits;
    Pow2Values();
    var n := |live|;
    Pow2Add(n + 8, 24 - n);
    Pow2Add(n, 8);
    LoadModulo(bsBuff, Pow2(n), Pow2(24 - n), Pow2(n + 8), 4294967296, c);
    ToNatConcat(live, ToBits(c, 8));
    BitsRoundTrip(c, 8);
  }

  lemma LoadModulo(x: nat, m: nat, k: nat, m': nat, w: nat, c: byte)
    requires m > 0 && k > 0 && m' == m * 256 && w == m' * k
    ensures w > 0 && (x * 256 + c) % w % m' == x % m * 256 + c
  {
    LoadQuotient(x, m, x / m, x % m, c);
    DivModUnique(x * 256 + c, m', x / m, x % m * 256 + c);
    ModOfMod(x * 256 + c, m', k);
  }

  lemma LoadQuotient(x: nat, m: nat, q: nat, r: nat, c: byte)
    requires m > 0 && q == x / m && r == x % m
    ensures x * 256 + c == q * (m * 256) + (r * 256 + c) && r * 256 + c < m * 256
  {
    assert x == q * m + r;
  }

  /** v = (bsBuff >> (bsLive - n)) & ((1 << n) - 1). */
  lemma KeepsTake(bsBuff: nat, live: Bits, n: nat)
    requires Keeps(bsBuff, live) && n <= |live|
    ensures bsBuff / Pow2(|live| - n) % Pow2(n) == ToNat(live[..n]) && Keeps(bsBuff, live[n..])
  {
    hide ToNat, Pow2;
    var a, b := live[..n], live[n..];
    var d := |live| - n;
    assert live == a + b;
    ToNatConcat(a, b);
    ToNatBound(a);
    ToNatBound(b);
    Pow2Add(n, d);
    var q := bsBuff / Pow2(|live|);
    TakeQuotient(bsBuff, Pow2(n), Pow2(d), q, ToNat(a), ToNat(b));
    DivModUnique(bsBuff, Pow2(d), q * Pow2(n) + ToNat(a), ToNat(b));
    DivModUnique(q * Pow2(n) + ToNat(a), Pow2(n), q, ToNat(a));
  }

  lemma TakeQuotient(x: nat, pn: nat, pd: nat, q: nat, a: nat, b: nat)
    requires pn > 0 && pd > 0 && pn * pd > 0 && q == x / (pn * pd) && x % (pn * pd) == a * pd + b
    ensures x == (q * pn + a) * pd + b
  {
    assert x == q * (pn * pd) + (a * pd + b);
    assert q * (pn * pd) == (q * pn) * pd;
    assert (q * pn + a) * pd == (q * pn) * pd + a * pd;
  }
}
