/** Codes sent most significant bit first and indexed least significant bit first, in canonical order. */
module LsbCode {
  import opened Base
  import opened BitString
  import opened BitIO
  import opened Radix
  import opened InverseBwt
  import opened CanonicalCode

  /** The number a bit string makes when its first bit is the least significant. */
  function LsbNat(b: Bits): (v: nat)
    ensures v < Pow2(|b|)
  {
    if b == [] then 0
    else
      var k := |b| - 1;
      LsbNat(b[..k]) + if b[k] then Pow2(k) else 0
  }

  lemma LsbPush(b: Bits, x: bool)
    ensures LsbNat(b + [x]) == LsbNat(b) + if x then Pow2(|b|) else 0
  {
    assert (b + [x])[..|b|] == b;
  }

  /** The low bits are the first bits. */
  lemma {:induction false} LsbMod(b: Bits, n: nat)
    requires n <= |b|
    ensures LsbNat(b) % Pow2(n) == LsbNat(b[..n])
  {
    hide LsbNat, Pow2;
    if n == |b| {
      assert b[..n] == b;
      LsbLess(b);
      DivModUnique(LsbNat(b), Pow2(n), 0, LsbNat(b));
    } else {
      var k := |b| - 1;
      LsbMod(b[..k], n);
      assert b[..k][..n] == b[..n] && b == b[..k] + [b[k]];
      LsbPush(b[..k], b[k]);
      Pow2Add(n, k - n);
      AddMultiple(LsbNat(b[..k]), Pow2(n), Pow2(k - n));
    }
  }

  lemma AddMultiple(x: nat, m: nat, k: nat)
    requires m > 0
    ensures (x + m * k) % m == x % m
  {
    var q, r := x / m, x % m;
    assert x + m * k == (q + k) * m + r by {
      assert x == q * m + r;
      assert (q + k) * m == q * m + m * k;
    }
    DivModUnique(x + m * k, m, q + k, r);
  }

  lemma {:induction false} LsbInjective(a: Bits, b: Bits)
    requires |a| == |b| && LsbNat(a) == LsbNat(b)
    ensures a == b
  {
    if a != [] {
      var k := |a| - 1;
      LsbInjective(a[..k], b[..k]);
      assert a == a[..k] + [a[k]] && b == b[..k] + [b[k]];
    }
  }

  lemma {:induction false} LsbZeros(b: Bits, n: nat)
    ensures LsbNat(b + Zeros(n)) == LsbNat(b)
  {
    if n == 0 {
      assert b + Zeros(0) == b;
    } else {
      LsbZeros(b, n - 1);
      assert b + Zeros(n) == (b + Zeros(n - 1)) + [false];
      LsbPush(b + Zeros(n - 1), false);
    }
  }

  /** n bits of a number, least significant first. */
  function LsbBits(v: nat, n: nat): (b: Bits)
    ensures |b| == n
  {
    if n == 0 then [] else [v % 2 == 1] + LsbBits(v / 2, n - 1)
  }

  lemma {:induction false} LsbFront(x: bool, b: Bits)
    ensures LsbNat([x] + b) == (if x then 1 else 0) + 2 * LsbNat(b)
  {
    if b == [] {
      assert [x] + b == [] + [x];
      LsbPush([], x);
    } else {
      var k := |b| - 1;
      LsbFront(x, b[..k]);
      assert [x] + b == ([x] + b[..k]) + [b[k]];
      LsbPush([x] + b[..k], b[k]);
    }
  }

  lemma {:induction false} LsbRoundTrip(v: nat, n: nat)
    requires v < Pow2(n)
    ensures LsbNat(LsbBits(v, n)) == v
  {
    if n > 0 {
      LsbRoundTrip(v / 2, n - 1);
      LsbFront(v % 2 == 1, LsbBits(v / 2, n - 1));
    }
  }

  // ---- the next string of the same length ----

  /** Add one to the number read most significant bit first; all ones become all zeros. */
  function Inc(b: Bits): (r: Bits)
    ensures |r| == |b|
  {
    if b == [] then []
    else
      var k := |b| - 1;
      if b[k] then Inc(b[..k]) + [false] else b[..k] + [true]
  }

  lemma {:induction false} IncIsNext(v: nat, n: nat)
    ensures Inc(ToBits(v, n)) == ToBits(v + 1, n)
  {
    if n > 0 {
      IncIsNext(v / 2, n - 1);
      var b := ToBits(v, n);
      assert b[..n - 1] == ToBits(v / 2, n - 1) && b[n - 1] == (v % 2 == 1);
      if v % 2 == 1 {
        assert (v + 1) / 2 == v / 2 + 1 && (v + 1) % 2 == 0;
      } else {
        assert (v + 1) / 2 == v / 2 && (v + 1) % 2 == 1;
      }
    }
  }

  lemma {:induction false} ToBitsZero(n: nat)
    ensures ToBits(0, n) == Zeros(n)
  {
    if n > 0 {
      ToBitsZero(n - 1);
    }
  }

  lemma {:induction false} ToBitsWraps(n: nat)
    ensures ToBits(Pow2(n), n) == Zeros(n)
  {
    if n > 0 {
      ToBitsWraps(n - 1);
      assert Pow2(n) / 2 == Pow2(n - 1) && Pow2(n) % 2 == 0;
    }
  }

  /** While the last bits are ones, the increment clears them. */
  ghost predicate OnesFrom(b: Bits, i: nat) {
    forall k :: i <= k < |b| ==> b[k]
  }

  lemma {:induction false} IncOnes(b: Bits, i: nat)
    requires i <= |b| && OnesFrom(b, i)
    ensures Inc(b) == Inc(b[..i]) + Zeros(|b| - i)
  {
    if i == |b| {
      assert b[..i] == b && Zeros(0) == [];
    } else {
      var k := |b| - 1;
      IncOnes(b[..k], i);
      assert b[..k][..i] == b[..i];
      assert Zeros(|b| - i) == Zeros(k - i) + [false];
    }
  }

  /** The bit test huff & (1 << i). */
  lemma BitAt(b: Bits, i: nat)
    requires i < |b|
    ensures LsbNat(b) / Pow2(i) % 2 == (if b[i] then 1 else 0) && LsbNat(b) % Pow2(i) == LsbNat(b[..i])
  {
    hide LsbNat, Pow2;
    LsbMod(b, i);
    LsbMod(b, i + 1);
    PowStep(i);
    LsbLess(b[..i]);
    assert b[..i + 1] == b[..i] + [b[i]];
    LsbPush(b[..i], b[i]);
    TwoFields(LsbNat(b), Pow2(i), LsbNat(b[..i]), b[i]);
  }

  lemma PowStep(n: nat)
    ensures Pow2(n + 1) == 2 * Pow2(n) && Pow2(n) > 0
  {
  }

  lemma LsbLess(b: Bits)
    ensures LsbNat(b) < Pow2(|b|)
  {
  }

  lemma TwoFields(x: nat, p: nat, lo: nat, bit: bool)
    requires p > 0 && lo < p && x % (2 * p) == lo + (if bit then p else 0)
    ensures x / p % 2 == (if bit then 1 else 0)
  {
    var q := x / (2 * p);
    var c := if bit then 1 else 0;
    assert x == (2 * q + c) * p + lo by {
      assert x == q * (2 * p) + x % (2 * p);
      assert (2 * q + c) * p == q * (2 * p) + c * p;
    }
    DivModUnique(x, p, 2 * q + c, lo);
  }

  /** The backwards increment of huff in inflate_table. */
  method BackwardIncrement(huff: nat, len: nat, ghost b: Bits) returns (h: nat)
    requires len > 0 && |b| == len && huff == LsbNat(b)
    ensures h == LsbNat(Inc(b))
  {
    hide LsbNat, Inc;
    var i: int := len - 1;
    assert OnesFrom(b, len);
    BitAt(b, len - 1);
    while i >= 0 && huff / Pow2(i) % 2 == 1
      invariant -1 <= i < len && OnesFrom(b, i + 1)
      invariant i >= 0 ==> huff / Pow2(i) % 2 == (if b[i] then 1 else 0) && huff % Pow2(i) == LsbNat(b[..i])
    {
      i := i - 1;
      if i >= 0 {
        BitAt(b, i);
      }
    }
    IncOnes(b, i + 1);
    if i >= 0 {
      h := huff % Pow2(i) + Pow2(i);
      IncOfZero(b[..i + 1]);
      assert b[..i + 1][..i] == b[..i];
      LsbPush(b[..i], true);
      LsbZeros(b[..i] + [true], len - i - 1);
    } else {
      h := 0;
      assert b[..0] == [] && Inc([]) == [];
      LsbZeros([], len);
      assert LsbNat([]) == 0;
    }
  }

  lemma IncOfZero(b: Bits)
    requires b != [] && !b[|b| - 1]
    ensures Inc(b) == b[..|b| - 1] + [true]
  {
  }

  // ---- codes in canonical order ----

  /** The table key of a symbol: its code, first bit least significant. */
  function Key(lens: seq<byte>, s: nat): nat
    requires s < |lens|
  {
    LsbNat(CodeBits(lens, s))
  }

  lemma {:induction false} OccupiedEmpty(lens: seq<byte>, n: nat, m: nat)
    requires n <= m && Below(lens, n + 1) == Below(lens, m + 1)
    ensures Occupied(lens, m) == Occupied(lens, n) * Pow2(m - n)
  {
    if n < m {
      BelowMonotone(lens, n + 1, m);
      assert Below(lens, m + 1) == Below(lens, m) + multiset(lens)[m];
      OccupiedEmpty(lens, n, m - 1);
      DoubleProduct(Occupied(lens, n), Pow2(m - 1 - n));
    }
  }

  /** The code after a code: one more, at the new length. */
  lemma NextCode(lens: seq<byte>, i: nat, j: nat)
    requires i < |lens| && j < |lens| && lens[i] >= 1 && LastToFirst(lens, j) == LastToFirst(lens, i) + 1
    ensures lens[i] <= lens[j] && CodeOf(lens, j) == (CodeOf(lens, i) + 1) * Pow2(lens[j] - lens[i])
  {
    hide Occupied, Below;
    LastToFirstOrder(lens, i, j);
    var n: nat, m: nat := lens[i], lens[j];
    PermPlace(lens, i);
    PermPlace(lens, j);
    BelowStep(lens, n);
    if n < m {
      BelowMonotone(lens, n + 1, m);
      assert Below(lens, n + 1) == Below(lens, m);
      OccupiedStep(lens, n);
      OccupiedEmpty(lens, n, m - 1);
      DoubleProduct(Occupied(lens, n), Pow2(m - 1 - n));
    }
  }

  lemma OccupiedStep(lens: seq<byte>, n: nat)
    requires n >= 1
    ensures Occupied(lens, n) == First(lens, n) + multiset(lens)[n]
  {
  }

  /** The first code is all zeros. */
  lemma FirstCode(lens: seq<byte>, i: nat)
    requires i < |lens| && lens[i] >= 1 && LastToFirst(lens, i) == Below(lens, 1)
    ensures CodeOf(lens, i) == 0
  {
    hide Occupied, Below;
    PermPlace(lens, i);
    BelowMonotone(lens, 1, lens[i]);
    OccupiedEmpty(lens, 0, lens[i] - 1);
    NoneOccupied(lens);
  }

  lemma NoneOccupied(lens: seq<byte>)
    ensures Occupied(lens, 0) == 0
  {
  }

  /** The code bits after a code: the increment, then zeros. */
  lemma NextBits(lens: seq<byte>, top: nat, i: nat, j: nat)
    requires Kraft(lens, top) <= Pow2(top) && i < |lens| && j < |lens| && lens[i] >= 1 && lens[j] <= top
    requires LastToFirst(lens, j) == LastToFirst(lens, i) + 1
    ensures lens[i] <= lens[j] && Key(lens, j) == LsbNat(Inc(CodeBits(lens, i)))
  {
    hide CodeOf, LsbNat, Inc, ToBits, Kraft, LastToFirst;
    NextCode(lens, i, j);
    var n: nat, d: nat := lens[i], lens[j] - lens[i];
    var v := CodeOf(lens, i);
    assert Pow2(d) > 0;
    ToBitsConcat(v + 1, n, 0, d);
    ToBitsZero(d);
    IncIsNext(v, n);
    LsbZeros(Inc(ToBits(v, n)), d);
    assert n + d == lens[j];
  }

  /** After the last code of a complete set, the increment wraps to zero. */
  lemma LastBits(lens: seq<byte>, i: nat, top: nat)
    requires i < |lens| && lens[i] == top >= 1 && Occupied(lens, top) == Pow2(top)
    requires LastToFirst(lens, i) + 1 == Below(lens, top + 1)
    ensures LsbNat(Inc(CodeBits(lens, i))) == 0
  {
    hide Occupied, Below, ToBits, LsbNat, Inc, Pow2;
    PermPlace(lens, i);
    BelowStep(lens, top);
    OccupiedStep(lens, top);
    IncIsNext(CodeOf(lens, i), top);
    ToBitsWraps(top);
    LsbZeros([], top);
    assert [] + Zeros(top) == Zeros(top);
    LsbNothing();
  }

  lemma LsbNothing()
    ensures LsbNat([]) == 0
  {
  }

  /** No index fits two codes. */
  lemma KeysDisjoint(lens: seq<byte>, top: nat, i: nat, j: nat, x: nat)
    requires Kraft(lens, top) <= Pow2(top) && i < |lens| && j < |lens| && i != j && 1 <= lens[i] <= lens[j] <= top
    requires x % Pow2(lens[j]) == Key(lens, j)
    ensures x % Pow2(lens[i]) != Key(lens, i)
  {
    hide CodeBits, LsbNat, Pow2, Kraft;
    var n: nat := lens[i];
    PrefixFree(lens, top, i, j);
    var a, b := CodeBits(lens, i), CodeBits(lens, j);
    LsbMod(b, n);
    Pow2Add(n, lens[j] - n);
    assert Pow2(n) > 0 && Pow2(lens[j] - n) > 0 by {
      PowPositive(n);
      PowPositive(lens[j] - n);
    }
    ModOfMod(x, Pow2(n), Pow2(lens[j] - n));
    LsbPrefix(a, b);
  }

  lemma LsbPrefix(a: Bits, b: Bits)
    requires |a| <= |b|
    ensures LsbNat(b[..|a|]) == LsbNat(a) ==> a <= b
  {
    hide LsbNat;
    if LsbNat(b[..|a|]) == LsbNat(a) {
      LsbInjective(b[..|a|], a);
    }
  }

  lemma PowPositive(n: nat)
    ensures Pow2(n) > 0
  {
  }
}
