/** adler32.c: Adler-32 with deferred modulo, its division-free reductions and its combination. */
module Adler32 {
  import opened Base

  const BASE := 65521
  const NMAX := 5552
  const WORD := 4294967296

  /** Both halves of a checksum, as the definition keeps them. */
  datatype Sums = Sums(a: nat, b: nat)

  predicate Reduced(s: Sums) {
    s.a < BASE && s.b < BASE
  }

  /** What the two halves of any word can hold. */
  predicate Halves(s: Sums) {
    s.a < 65536 && s.b < 65536
  }

  /** adler | (sum2 << 16). */
  function Pack(s: Sums): (w: nat)
    requires Halves(s)
    ensures w < WORD
  {
    s.a + s.b * 65536
  }

  /** adler & 0xffff and (adler >> 16) & 0xffff. */
  function Unpack(w: nat): (s: Sums)
    ensures Halves(s)
  {
    Sums(w % 65536, w / 65536 % 65536)
  }

  lemma UnpackPack(s: Sums)
    requires Halves(s)
    ensures Unpack(Pack(s)) == s
  {
    var w := Pack(s);
    assert w / 65536 == s.b;
    assert w % 65536 == s.a;
  }

  /** The definition, one byte at a time: section 8.2 of RFC 1950. */
  function Fold(s: Sums, buf: seq<byte>): (r: Sums)
    requires Reduced(s)
    ensures Reduced(r)
  {
    if buf == [] then s
    else
      var p := Fold(s, buf[..|buf| - 1]);
      var a := (p.a + buf[|buf| - 1]) % BASE;
      Sums(a, (p.b + a) % BASE)
  }

  /** The same sums without reduction. */
  function Raw(s: Sums, buf: seq<byte>): Sums {
    if buf == [] then s
    else
      var p := Raw(s, buf[..|buf| - 1]);
      var a: nat := p.a + buf[|buf| - 1];
      Sums(a, p.b + a)
  }

  function Modulo(s: Sums): (r: Sums)
    ensures Reduced(r)
  {
    Sums(s.a % BASE, s.b % BASE)
  }

  lemma AddModulo(x: nat, y: nat)
    ensures (x % BASE + y) % BASE == (x + y) % BASE
  {
  }

  lemma StepModulo(a: nat, b: nat, c: nat)
    ensures (a % BASE + c) % BASE == (a + c) % BASE
    ensures (b % BASE + (a + c) % BASE) % BASE == (b + (a + c)) % BASE
  {
    AddModulo(a, c);
    AddModulo(b, (a + c) % BASE);
    AddModulo(a + c, b);
  }

  /** Reducing once at the end is reducing at every byte, the start included. */
  lemma {:induction false} DeferredModulo(s: Sums, buf: seq<byte>)
    ensures Modulo(Raw(s, buf)) == Fold(Modulo(s), buf)
  {
    if buf != [] {
      var k := |buf| - 1;
      DeferredModulo(s, buf[..k]);
      var p := Raw(s, buf[..k]);
      StepModulo(p.a, p.b, buf[k]);
    }
  }

  lemma ModuloReduced(s: Sums)
    ensures Reduced(Modulo(s)) && (Reduced(s) ==> Modulo(s) == s) && Modulo(Modulo(s)) == Modulo(s)
  {
  }

  lemma {:induction false} FoldConcat(s: Sums, x: seq<byte>, y: seq<byte>)
    requires Reduced(s)
    ensures Fold(s, x + y) == Fold(Fold(s, x), y)
    decreases |y|
  {
    if y == [] {
      assert x + y == x;
    } else {
      var k := |y| - 1;
      FoldConcat(s, x, y[..k]);
      assert (x + y)[..|x + y| - 1] == x + y[..k] && (x + y)[|x + y| - 1] == y[k];
    }
  }

  lemma RawPush(s: Sums, buf: seq<byte>, c: byte)
    ensures var p := Raw(s, buf); Raw(s, buf + [c]) == Sums(p.a + c, p.b + p.a + c)
  {
    assert (buf + [c])[..|buf|] == buf;
  }

  // ---- no overflow inside a batch ----

  function Triangle(n: nat): nat {
    if n == 0 then 0 else Triangle(n - 1) + n
  }

  lemma {:induction false} TriangleClosed(n: nat)
    ensures 2 * Triangle(n) == n * (n + 1)
  {
    if n > 0 {
      TriangleClosed(n - 1);
    }
  }

  lemma {:induction false} TriangleMonotone(m: nat, n: nat)
    requires m <= n
    ensures Triangle(m) <= Triangle(n)
  {
    if m < n {
      TriangleMonotone(m, n - 1);
    }
  }

  lemma {:induction false} RawBounded(s: Sums, buf: seq<byte>)
    requires Halves(s)
    ensures Raw(s, buf).a <= 65535 + 255 * |buf|
    ensures Raw(s, buf).b <= 65535 * (|buf| + 1) + 255 * Triangle(|buf|)
  {
    if buf != [] {
      RawBounded(s, buf[..|buf| - 1]);
    }
  }

  /** NMAX is small enough: neither sum reaches 2^32 within a batch, whatever word it starts from. */
  lemma BatchFits(s: Sums, buf: seq<byte>)
    requires Halves(s) && |buf| <= NMAX
    ensures Raw(s, buf).a < WORD && Raw(s, buf).b < WORD
  {
    RawBounded(s, buf);
    TriangleMonotone(|buf|, NMAX);
    TriangleClosed(NMAX);
  }

  lemma {:induction false} RawOfFull(s: Sums, n: nat)
    ensures var r := Raw(s, seq(n, _ => 255 as byte));
      r.a == s.a + 255 * n && r.b == s.b + s.a * n + 255 * Triangle(n)
  {
    if n > 0 {
      RawOfFull(s, n - 1);
      assert seq(n, _ => 255 as byte) == seq(n - 1, _ => 255 as byte) + [255];
      RawPush(s, seq(n - 1, _ => 255 as byte), 255);
      assert s.a * n == s.a * (n - 1) + s.a;
    }
  }

  /** ... and no larger: from a reduced start, NMAX + 1 bytes of 255 overflow. */
  lemma BatchTight(buf: seq<byte>)
    requires |buf| == NMAX + 1 && forall i :: 0 <= i < |buf| ==> buf[i] == 255
    ensures var s := Sums(BASE - 1, BASE - 1); Reduced(s) && Raw(s, buf).b >= WORD
  {
    var s := Sums(BASE - 1, BASE - 1);
    assert buf == seq(NMAX + 1, _ => 255 as byte);
    RawOfFull(s, NMAX + 1);
    TriangleClosed(NMAX + 1);
  }

  // ---- the division-free reductions ----

  /** a &= 0xffff; a += (tmp << 4) - tmp. */
  function Chop(a: nat): nat {
    a % 65536 + (a / 65536 * 16 - a / 65536)
  }

  function Mod28(a: nat): nat {
    var c := Chop(a);
    if c >= BASE then c - BASE else c
  }

  function Mod(a: nat): nat {
    Mod28(Chop(a))
  }

  function Mod63(a: nat): nat {
    var t := a / WORD;
    var c := a % WORD + (t * 256 - t * 32 + t);
    Mod28(Chop(c))
  }

  lemma ChopKeeps(a: nat)
    ensures Chop(a) % BASE == a % BASE && Chop(a) <= 65535 + 15 * (a / 65536)
  {
    assert a == 65536 * (a / 65536) + a % 65536;
    assert a - Chop(a) == BASE * (a / 65536);
    MultipleApart(a, Chop(a), a / 65536);
  }

  lemma MultipleApart(x: nat, y: nat, k: int)
    requires x - y == BASE * k
    ensures x % BASE == y % BASE
  {
  }

  lemma Mod28Exact(a: nat)
    requires a < 268435456
    ensures Mod28(a) == a % BASE
  {
    ChopKeeps(a);
  }

  lemma ModExact(a: nat)
    requires a < WORD
    ensures Mod(a) == a % BASE
  {
    ChopKeeps(a);
    Mod28Exact(Chop(a));
  }

  lemma Mod63Exact(a: nat)
    requires a < 9223372036854775808
    ensures Mod63(a) == a % BASE
  {
    var t := a / WORD;
    var c := a % WORD + (t * 256 - t * 32 + t);
    assert a == WORD * t + a % WORD;
    assert a - c == BASE * (65551 * t);
    MultipleApart(a, c, 65551 * t);
    ChopKeeps(c);
    Mod28Exact(Chop(c));
  }

  // ---- adler32 ----

  /** A stretch of DO1 steps on unreduced sums; both stay below 2^32. */
  method Accumulate(s: Sums, buf: seq<byte>) returns (adler: nat, sum2: nat)
    requires Halves(s) && |buf| <= NMAX
    ensures Sums(adler, sum2) == Raw(s, buf) && adler < WORD && sum2 < WORD
  {
    hide Raw;
    adler, sum2 := s.a, s.b;
    NoBytes(s);
    assert buf[..0] == [];
    var i := 0;
    while i < |buf|
      invariant 0 <= i <= |buf| && Sums(adler, sum2) == Raw(s, buf[..i])
    {
      assert buf[..i + 1] == buf[..i] + [buf[i]];
      RawPush(s, buf[..i], buf[i]);
      BatchFits(s, buf[..i + 1]);
      adler := (adler + buf[i]) % WORD;
      sum2 := (sum2 + adler) % WORD;
      i := i + 1;
    }
    assert buf[..i] == buf;
    BatchFits(s, buf);
  }

  lemma NoBytes(s: Sums)
    ensures Raw(s, []) == s && (Reduced(s) ==> Fold(s, []) == s)
  {
  }

  /**
   * adler32 from any start word: modulo 65521 both halves are those of the byte-wise definition, and the result
   * is the reduced word itself except where a single byte spills, which takes a start that is not reduced.
   */
  method Checksum(adler: nat, buf: seq<byte>) returns (r: nat)
    requires adler < WORD
    ensures Modulo(Unpack(r)) == Fold(Modulo(Unpack(adler)), buf)
    ensures r == Pack(Fold(Modulo(Unpack(adler)), buf)) <==> !Spills(Unpack(adler), buf)
    ensures Reduced(Unpack(adler)) ==> !Spills(Unpack(adler), buf)
  {
    hide Fold, Raw, Modulo, Pack, Unpack;
    var s := Unpack(adler);
    ModuloReduced(s);
    ghost var f := Fold(Modulo(s), buf);
    ModuloReduced(f);
    UnpackPack(f);
    var t;
    if |buf| == 1 {
      t := SingleByte(s, buf);
    } else if |buf| < 16 {
      t := ShortBuffer(s, buf);
    } else {
      t := LongBuffer(s, buf);
    }
    UnpackPack(t);
    r := Pack(t);
  }

  method LongBuffer(s: Sums, buf: seq<byte>) returns (r: Sums)
    requires Halves(s) && |buf| >= 16
    ensures r == Fold(Modulo(s), buf)
  {
    hide Fold, Raw, Modulo, Triangle;
    NoBytes(Modulo(s));
    ModuloReduced(s);
    var adler, sum2, pos := s.a, s.b, 0;
    assert buf[..0] == [];
    while |buf| - pos >= NMAX
      invariant 0 <= pos <= |buf| && Halves(Sums(adler, sum2))
      invariant Modulo(Sums(adler, sum2)) == Fold(Modulo(s), buf[..pos])
      invariant pos > 0 ==> Reduced(Sums(adler, sum2))
    {
      adler, sum2 := Batch(Modulo(s), buf, pos, pos + NMAX, adler, sum2);
      pos := pos + NMAX;
    }
    if pos < |buf| {
      adler, sum2 := Batch(Modulo(s), buf, pos, |buf|, adler, sum2);
    }
    assert buf[..|buf|] == buf;
    r := Sums(adler, sum2);
    ModuloReduced(r);
  }

  /** One batch and its modulo. */
  method Batch(ghost s: Sums, buf: seq<byte>, pos: nat, end: nat, a0: nat, b0: nat) returns (adler: nat, sum2: nat)
    requires Reduced(s) && pos <= end <= |buf| && end - pos <= NMAX
    requires Halves(Sums(a0, b0)) && Modulo(Sums(a0, b0)) == Fold(s, buf[..pos])
    ensures Reduced(Sums(adler, sum2)) && Modulo(Sums(adler, sum2)) == Fold(s, buf[..end])
  {
    hide Fold, Raw, Mod;
    adler, sum2 := Accumulate(Sums(a0, b0), buf[pos..end]);
    DeferredModulo(Sums(a0, b0), buf[pos..end]);
    FoldConcat(s, buf[..pos], buf[pos..end]);
    assert buf[..pos] + buf[pos..end] == buf[..end];
    ModExact(adler);
    ModExact(sum2);
    adler, sum2 := Mod(adler), Mod(sum2);
  }

  /** if (x >= BASE) x -= BASE. */
  function Trim(x: nat): nat {
    if x >= BASE then x - BASE else x
  }

  lemma Trimmed(x: nat)
    ensures Trim(x) % BASE == x % BASE && (x < 2 * BASE ==> Trim(x) == x % BASE) && (Trim(x) < BASE <==> x < 2 * BASE)
  {
    if x >= BASE {
      MultipleApart(x, x - BASE, 1);
    }
  }

  /** One byte: two conditional subtractions, which may leave the second half unreduced. */
  method SingleByte(s: Sums, buf: seq<byte>) returns (r: Sums)
    requires Halves(s) && |buf| == 1
    ensures Halves(r) && Modulo(r) == Fold(Modulo(s), buf) && (r == Modulo(r) <==> !Spills(s, buf))
  {
    hide Fold, Trim;
    OneByte(s, buf);
    Trimmed(s.a + buf[0]);
    var adler := Trim(s.a + buf[0]);
    Trimmed(s.b + adler);
    SmallSum(s.b + adler);
    r := Sums(adler, Trim(s.b + adler));
    ModuloOf(r);
  }

  lemma SmallSum(x: nat)
    requires x < 65536 + BASE
    ensures Trim(x) < 65536
  {
  }

  lemma ModuloOf(s: Sums)
    requires s.a < BASE
    ensures s == Modulo(s) <==> s.b < BASE
  {
  }

  /** A single byte on a second half so large that one subtraction is not enough. */
  predicate Spills(s: Sums, buf: seq<byte>) {
    |buf| == 1 && s.b + (s.a + buf[0]) % BASE >= 2 * BASE
  }

  /** A start word that is not reduced, and one byte on which it spills. */
  lemma SpillHappens()
    ensures Spills(Unpack(0xffff_fff0), [0])
  {
  }

  lemma OneByte(s: Sums, buf: seq<byte>)
    requires |buf| == 1
    ensures Fold(Modulo(s), buf) == Modulo(Sums(s.a + buf[0], s.b + (s.a + buf[0]) % BASE))
  {
    NoBytes(Modulo(s));
    assert buf[..0] == [];
    AddModulo(s.a, buf[0]);
    AddModulo(s.b, (s.a + buf[0]) % BASE);
  }

  /** Fewer than 16 bytes: few enough for MOD28, and for one subtraction from the first sum. */
  method ShortBuffer(s: Sums, buf: seq<byte>) returns (r: Sums)
    requires Halves(s) && |buf| < 16
    ensures r == Fold(Modulo(s), buf)
  {
    hide Fold, Raw, Mod28, Triangle;
    var adler, sum2 := Accumulate(s, buf);
    DeferredModulo(s, buf);
    RawBounded(s, buf);
    TriangleMonotone(|buf|, 15);
    TriangleClosed(15);
    Mod28Exact(sum2);
    if adler >= BASE {
      adler := adler - BASE;
    }
    r := Sums(adler, Mod28(sum2));
  }

  // ---- adler32_combine_ ----

  /** Starting from (a, b) rather than (0, 0) shifts the sums linearly. */
  lemma {:induction false} RawShift(s: Sums, buf: seq<byte>)
    ensures Raw(s, buf).a == s.a + Raw(Sums(0, 0), buf).a
    ensures Raw(s, buf).b == s.b + |buf| * s.a + Raw(Sums(0, 0), buf).b
  {
    if buf != [] {
      RawShift(s, buf[..|buf| - 1]);
      assert |buf| * s.a == (|buf| - 1) * s.a + s.a;
    }
  }

  /** No product or sum in the combination leaves 32 bits. */
  lemma CombineFits(s1: Sums, s2: Sums, rem: nat)
    requires Reduced(s1) && Reduced(s2) && rem < BASE
    ensures rem * s1.a < WORD && rem * s1.a % BASE + s1.b + s2.b + BASE - rem < WORD
  {
    ProductBound(rem, s1.a, BASE - 1);
  }

  lemma ProductBound(x: nat, y: nat, m: nat)
    requires x <= m && y <= m
    ensures x * y <= m * m
  {
    assert x * y <= m * y <= m * m;
  }

  /** The arithmetic of adler32_combine_, with the length already reduced; no step leaves 32 bits. */
  function CombineSums(s1: Sums, s2: Sums, rem: nat): (r: Sums)
    requires Reduced(s1) && Reduced(s2) && rem < BASE
    ensures Reduced(r)
  {
    CombineFits(s1, s2, rem);
    ModExact(rem * s1.a);
    var sum1 := s1.a + s2.a + BASE - 1;
    var sum2 := Mod(rem * s1.a) + s1.b + s2.b + BASE - rem;
    var t1 := if sum1 >= BASE then sum1 - BASE else sum1;
    var t2 := if sum2 >= 2 * BASE then sum2 - 2 * BASE else sum2;
    Sums(if t1 >= BASE then t1 - BASE else t1, if t2 >= BASE then t2 - BASE else t2)
  }

  lemma CombineModulo(s1: Sums, s2: Sums, rem: nat)
    requires Reduced(s1) && Reduced(s2) && rem < BASE
    ensures CombineSums(s1, s2, rem).a == (s1.a + s2.a + BASE - 1) % BASE
    ensures CombineSums(s1, s2, rem).b == (rem * s1.a % BASE + s1.b + s2.b + BASE - rem) % BASE
  {
    hide Mod;
    CombineFits(s1, s2, rem);
    ModExact(rem * s1.a);
  }

  lemma ProductModulo(n: nat, a: nat)
    ensures n % BASE * a + BASE * (n / BASE * a) == n * a
  {
    var q, r := n / BASE, n % BASE;
    assert n == BASE * q + r;
    assert (BASE * q + r) * a == BASE * (q * a) + r * a;
  }

  lemma CombineB(n: nat, a: nat, b: nat, rb: nat)
    requires a < BASE && b < BASE
    ensures (n % BASE * a % BASE + b + (n + rb) % BASE + BASE - n % BASE) % BASE == (b + n * a + rb) % BASE
  {
    var q, rem := n / BASE, n % BASE;
    var k1, k2 := rem * a / BASE, (n + rb) / BASE;
    ProductModulo(n, a);
    var t := rem * a % BASE + b + (n + rb) % BASE + BASE - rem;
    var u := b + n * a + rb;
    assert rem * a == BASE * k1 + rem * a % BASE;
    assert n + rb == BASE * k2 + (n + rb) % BASE;
    assert u - t == BASE * (q * a + k1 + k2 - q - 1);
    MultipleApart(u, t, q * a + k1 + k2 - q - 1);
  }

  /** A checksum from any start, by the raw sums from zero. */
  lemma FoldByRaw(s: Sums, buf: seq<byte>)
    requires Reduced(s)
    ensures var r := Raw(Sums(0, 0), buf);
      Fold(s, buf) == Sums((s.a + r.a) % BASE, (s.b + |buf| * s.a + r.b) % BASE)
  {
    hide Raw, Fold;
    DeferredModulo(s, buf);
    ModuloReduced(s);
    RawShift(s, buf);
  }

  lemma TimesOne(n: nat)
    ensures n * 1 == n
  {
  }

  /** adler32_combine_ continues any checksum by a string known only by its own checksum and length. */
  lemma CombineContinues(s: Sums, buf: seq<byte>)
    requires Reduced(s)
    ensures CombineSums(s, Fold(Sums(1, 0), buf), |buf| % BASE) == Fold(s, buf)
  {
    hide Raw, Fold, CombineSums;
    var r := Raw(Sums(0, 0), buf);
    var start := Sums(1, 0);
    FoldByRaw(s, buf);
    FoldByRaw(start, buf);
    TimesOne(|buf|);
    CombineModulo(s, Fold(start, buf), |buf| % BASE);
    CombineA(s.a, r.a);
    CombineB(|buf|, s.a, s.b, r.b);
  }

  lemma CombineA(a: nat, ra: nat)
    ensures (a + (1 + ra) % BASE + BASE - 1) % BASE == (a + ra) % BASE
  {
    var k := (1 + ra) / BASE;
    assert 1 + ra == BASE * k + (1 + ra) % BASE;
    MultipleApart(a + ra, a + (1 + ra) % BASE + BASE - 1, k - 1);
  }

  /** adler32 of a whole buffer, as the definition has it: the packed word from the start value 1. */
  function Adler(buf: seq<byte>): (w: nat)
    ensures w < WORD
  {
    Pack(Fold(Sums(1, 0), buf))
  }

  /**
   * adler32_combine_: the checksum of a concatenation from the checksums of its parts; a negative length is refused.
   */
  method Combine(adler1: nat, adler2: nat, len2: int, ghost x: seq<byte>, ghost y: seq<byte>) returns (r: nat)
    requires len2 < 9223372036854775808 && (len2 >= 0 ==> len2 == |y| && adler1 == Adler(x) && adler2 == Adler(y))
    ensures r == if len2 < 0 then WORD - 1 else Adler(x + y)
  {
    hide Fold, CombineSums, Pack, Unpack, Mod63;
    if len2 < 0 {
      return WORD - 1;
    }
    FoldConcat(Sums(1, 0), x, y);
    CombineContinues(Fold(Sums(1, 0), x), y);
    UnpackPack(Fold(Sums(1, 0), x));
    UnpackPack(Fold(Sums(1, 0), y));
    Mod63Exact(len2);
    r := Pack(CombineSums(Unpack(adler1), Unpack(adler2), Mod63(len2)));
  }
}
