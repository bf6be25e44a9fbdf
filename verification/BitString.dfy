/** Bit strings, most significant bit first. */
module BitString {
  import opened Base

  type Bits = seq<bool>

  function Bit(b: bool): nat {
    if b then 1 else 0
  }

  /** The low `n` bits of `v`. */
  function ToBits(v: nat, n: nat): (b: Bits)
    ensures |b| == n
  {
    if n == 0 then [] else ToBits(v / 2, n - 1) + [v % 2 == 1]
  }

  function ToNat(b: Bits): (v: nat)
    ensures v < Pow2(|b|)
  {
    if b == [] then 0 else 2 * ToNat(b[..|b| - 1]) + Bit(b[|b| - 1])
  }

  lemma NoBits(v: nat)
    ensures ToBits(v, 0) == [] && BytesToBits([]) == []
  {
  }

  lemma ToNatPush(b: Bits, x: bool)
    ensures ToNat(b + [x]) == 2 * ToNat(b) + Bit(x)
  {
    assert (b + [x])[..|b|] == b;
  }

  lemma {:induction false} BitsRoundTrip(v: nat, n: nat)
    requires v < Pow2(n)
    ensures ToNat(ToBits(v, n)) == v
  {
    hide ToNat;
    if n == 0 {
      ToNatEmpty();
    } else {
      BitsRoundTrip(v / 2, n - 1);
      ToNatPush(ToBits(v / 2, n - 1), v % 2 == 1);
    }
  }

  lemma {:induction false} NatRoundTrip(b: Bits)
    ensures ToBits(ToNat(b), |b|) == b
  {
    if b != [] {
      var p, x := b[..|b| - 1], b[|b| - 1];
      NatRoundTrip(p);
      assert ToNat(b) / 2 == ToNat(p) && (ToNat(b) % 2 == 1 <==> x);
      assert b == p + [x];
    }
  }

  lemma ToNatEmpty()
    ensures ToNat([]) == 0
  {
  }

  lemma DoubleProduct(x: nat, y: nat)
    ensures x * (2 * y) == 2 * (x * y)
  {
  }

  lemma {:induction false} ToNatConcat(a: Bits, b: Bits)
    ensures ToNat(a + b) == ToNat(a) * Pow2(|b|) + ToNat(b)
    decreases |b|
  {
    hide ToNat;
    if b == [] {
      assert a + b == a;
      ToNatEmpty();
    } else {
      var p, x := b[..|b| - 1], b[|b| - 1];
      ToNatConcat(a, p);
      ToNatPush(a + p, x);
      assert a + b == (a + p) + [x] && b == p + [x];
      ToNatPush(p, x);
      DoubleProduct(ToNat(a), Pow2(|p|));
    }
  }

  /** Writing `v` and then `w` is writing the two fields side by side. */
  lemma {:induction false} ToBitsConcat(v: nat, m: nat, w: nat, n: nat)
    requires w < Pow2(n)
    ensures ToBits(v * Pow2(n) + w, m + n) == ToBits(v, m) + ToBits(w, n)
    decreases n
  {
    if n == 0 {
      assert ToBits(v, m) + ToBits(w, 0) == ToBits(v, m);
    } else {
      var x := v * Pow2(n) + w;
      assert v * Pow2(n) == 2 * (v * Pow2(n - 1));
      assert x / 2 == v * Pow2(n - 1) + w / 2 && x % 2 == w % 2;
      ToBitsConcat(v, m, w / 2, n - 1);
      assert m + n - 1 == m + (n - 1);
      assert ToBits(v, m) + ToBits(w, n) == (ToBits(v, m) + ToBits(w / 2, n - 1)) + [w % 2 == 1];
    }
  }

  /** The bytes of a file as one bit string. */
  function BytesToBits(s: seq<byte>): (b: Bits)
    ensures |b| == 8 * |s|
  {
    if s == [] then [] else BytesToBits(s[..|s| - 1]) + ToBits(s[|s| - 1], 8)
  }

  lemma {:induction false} BytesConcat(s: seq<byte>, t: seq<byte>)
    ensures BytesToBits(s + t) == BytesToBits(s) + BytesToBits(t)
    decreases |t|
  {
    hide ToBits;
    if t == [] {
      assert s + t == s;
    } else {
      var k := |t| - 1;
      BytesConcat(s, t[..k]);
      assert (s + t)[..|s + t| - 1] == s + t[..k] && (s + t)[|s + t| - 1] == t[k];
      assert BytesToBits(s + t) == BytesToBits(s + t[..k]) + ToBits(t[k], 8);
    }
  }
}
