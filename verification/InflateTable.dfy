/** inflate_table of inftrees.c: what the two-level decoding table must hold, and why each write keeps it. */
module InflateTable {
  import opened Base
  import opened BitIO
  import opened CanonicalCode
  import opened LsbCode

  const MAXBITS := 15
  const ENOUGH_LENS := 852
  const ENOUGH_DISTS := 592

  datatype CodeType = Codes | Lens | Dists

  /** A table slot; `Unset` is storage not yet written. */
  datatype Slot = Unset | Entry(op: nat, bits: nat, val: nat)

  const LBASE: seq<nat> := [3, 4, 5, 6, 7, 8, 9, 10, 11, 13, 15, 17, 19, 23, 27, 31,
                            35, 43, 51, 59, 67, 83, 99, 115, 131, 163, 195, 227, 258, 0, 0]
  const LEXT: seq<nat> := [16, 16, 16, 16, 16, 16, 16, 16, 17, 17, 17, 17, 18, 18, 18, 18,
                           19, 19, 19, 19, 20, 20, 20, 20, 21, 21, 21, 21, 16, 78, 68]
  const DBASE: seq<nat> := [1, 2, 3, 4, 5, 7, 9, 13, 17, 25, 33, 49, 65, 97, 129, 193,
                            257, 385, 513, 769, 1025, 1537, 2049, 3073, 4097, 6145,
                            8193, 12289, 16385, 24577, 0, 0]
  const DEXT: seq<nat> := [16, 16, 16, 16, 17, 17, 18, 18, 19, 19, 20, 20, 21, 21, 22, 22,
                           23, 23, 24, 24, 25, 25, 26, 26, 27, 27, 28, 28, 29, 29, 64, 64]

  /** How many symbols each kind of code may have. */
  function MaxSymbols(ty: CodeType): nat {
    match ty
    case Codes => 19
    case Lens => 288
    case Dists => 32
  }

  /** The entry of symbol `s`, `bits` of whose code are left at this level. */
  function Leaf(ty: CodeType, s: nat, bits: nat): (e: Slot)
    requires s < MaxSymbols(ty)
    ensures e.Entry? && e.bits == bits && (e.op == 0 || e.op >= 16)
  {
    match ty
    case Codes => Entry(0, bits, s)
    case Lens =>
      if s < 256 then Entry(0, bits, s)
      else if s > 256 then Entry(LEXT[s - 257], bits, LBASE[s - 257])
      else Entry(96, bits, 0)
    case Dists => Entry(DEXT[s], bits, DBASE[s])
  }

  predicate NoCodes(lens: seq<byte>) {
    forall s :: 0 <= s < |lens| ==> lens[s] == 0
  }

  predicate OnlyOneBit(lens: seq<byte>) {
    forall s :: 0 <= s < |lens| ==> lens[s] <= 1
  }

  /** The code and the shape of its table. */
  datatype Job = Job(lens: seq<byte>, ty: CodeType, root: nat, top: nat)

  ghost predicate Good(j: Job) {
    && |j.lens| <= MaxSymbols(j.ty) && 1 <= j.root <= j.top <= MAXBITS
    && (forall s :: 0 <= s < |j.lens| ==> j.lens[s] <= j.top)
    && Kraft(j.lens, j.top) <= Pow2(j.top)
  }

  /** A symbol that has a code. */
  predicate Coded(j: Job, s: int) {
    0 <= s < |j.lens| && j.lens[s] > 0
  }

  /** The root index of a long code. */
  function RootOf(j: Job, s: nat): nat
    requires s < |j.lens|
  {
    Key(j.lens, s) % Pow2(j.root)
  }

  function Quotient(a: nat, b: nat): nat
    requires b > 0
  {
    a / b
  }

  /** The rest of the key of a long code: its index in the sub-table. */
  function SubKey(j: Job, s: nat): nat
    requires s < |j.lens|
  {
    Quotient(Key(j.lens, s), Pow2(j.root))
  }

  /** How much of a long code the sub-table reads. */
  function SubLen(j: Job, s: nat): nat
    requires s < |j.lens| && j.lens[s] > j.root
  {
    j.lens[s] - j.root
  }

  /** Every root slot whose index continues the code of `s` has its entry. */
  ghost predicate InRoot(j: Job, t: seq<Slot>, s: nat)
    requires Good(j) && Coded(j, s)
  {
    && Pow2(j.root) <= |t|
    && forall x :: 0 <= x < Pow2(j.root) && x % Pow2(j.lens[s]) == Key(j.lens, s) ==> t[x] == Leaf(j.ty, s, j.lens[s])
  }

  /** A root slot that leads to a sub-table of 2^op slots at val. */
  ghost predicate IsLink(j: Job, t: seq<Slot>, p: nat) {
    && p < |t| && t[p].Entry? && 1 <= t[p].op <= MAXBITS && t[p].bits == j.root
    && Pow2(j.root) <= t[p].val && t[p].val + Pow2(t[p].op) <= |t|
  }

  /** The root slot of a long code leads to a sub-table that has its entry wherever the index continues the code. */
  ghost predicate InSub(j: Job, t: seq<Slot>, s: nat)
    requires Good(j) && Coded(j, s) && j.lens[s] > j.root
  {
    var p := RootOf(j, s);
    && Pow2(j.root) <= |t| && IsLink(j, t, p) && j.lens[s] <= j.root + t[p].op
    && forall y :: 0 <= y < Pow2(t[p].op) && (p + Pow2(j.root) * y) % Pow2(j.lens[s]) == Key(j.lens, s)
         ==> t[t[p].val + y] == Leaf(j.ty, s, SubLen(j, s))
  }

  ghost predicate Findable(j: Job, t: seq<Slot>, s: nat)
    requires Good(j) && Coded(j, s)
  {
    if j.lens[s] <= j.root then InRoot(j, t, s) else InSub(j, t, s)
  }

  // ---- arithmetic of indices ----

  /** A sub-table index continues a code exactly when the whole index does. */
  lemma SubIndex(root: nat, len: nat, key: nat, y: nat)
    requires root < len && key < Pow2(len)
    ensures (key % Pow2(root) + Pow2(root) * y) % Pow2(len) == key <==> y % Pow2(len - root) == key / Pow2(root)
  {
    hide Pow2;
    var r, m := Pow2(root), Pow2(len - root);
    PowPositive(root);
    PowPositive(len - root);
    Pow2Add(root, len - root);
    SubIndexMod(r, m, key, y);
  }

  lemma SubIndexMod(r: nat, m: nat, key: nat, y: nat)
    requires r > 0 && m > 0 && key < r * m
    ensures r * m > 0 && ((key % r + r * y) % (r * m) == key <==> y % m == key / r)
  {
    var p, q := key % r, key / r;
    assert key == r * q + p;
    QuotientBelow(r, m, q, p);
    var z := y % m;
    assert p + r * y == (y / m) * (r * m) + (p + r * z) by {
      assert y == y / m * m + z;
      assert r * (y / m * m + z) == (y / m) * (r * m) + r * z;
    }
    SumBelow(r, m, z, p);
    DivModUnique(p + r * y, r * m, y / m, p + r * z);
    FactorEqual(r, z, q);
  }

  lemma QuotientBelow(r: nat, m: nat, q: nat, p: nat)
    requires r > 0 && r * q + p < r * m
    ensures q < m
  {
    ProductGrows(r, q, m);
  }

  lemma ProductGrows(r: nat, q: nat, m: nat)
    ensures q >= m ==> r * q >= r * m
  {
    if q >= m {
      assert r * q == r * m + r * (q - m);
    }
  }

  lemma SumBelow(r: nat, m: nat, z: nat, p: nat)
    requires z < m && p < r
    ensures p + r * z < r * m && r * m > 0
  {
    assert r * (z + 1) <= r * m;
  }

  lemma FactorEqual(r: nat, z: nat, q: nat)
    requires r > 0
    ensures r * z == r * q <==> z == q
  {
    if z < q {
      assert r * z + r <= r * q by {
        assert r * (z + 1) <= r * q;
      }
    } else if q < z {
      assert r * q + r <= r * z by {
        assert r * (q + 1) <= r * z;
      }
    }
  }

  lemma KeyBelow(lens: seq<byte>, s: nat)
    requires s < |lens|
    ensures Key(lens, s) < Pow2(lens[s])
  {
    hide Pow2;
    LsbLess(CodeBits(lens, s));
  }

  /** The low bits of the low bits. */
  lemma LowOfLow(x: nat, a: nat, b: nat)
    requires a <= b
    ensures x % Pow2(b) % Pow2(a) == x % Pow2(a)
  {
    hide Pow2;
    PowPositive(a);
    PowPositive(b - a);
    Pow2Add(a, b - a);
    ModOfMod(x, Pow2(a), Pow2(b - a));
  }

  lemma ModSmall(x: nat, m: nat)
    requires x < m
    ensures x % m == x
  {
  }

  // ---- one write of inflate_table ----

  /** `u` is `t` with `e` in every slot next + y, y < size, y % m == r. */
  ghost predicate Filled(t: seq<Slot>, u: seq<Slot>, next: nat, size: nat, m: nat, r: nat, e: Slot) {
    && |u| == |t| && m > 0
    && forall i {:trigger u[i]} :: 0 <= i < |t| ==>
      u[i] == if next <= i < next + size && (i - next) % m == r then e else t[i]
  }

  /** Filling the root table for `s` places it and disturbs no other short code. */
  lemma RootFill(j: Job, t: seq<Slot>, u: seq<Slot>, s: nat, o: nat)
    requires Good(j) && Coded(j, s) && j.lens[s] <= j.root && Pow2(j.root) <= |t|
    requires Filled(t, u, 0, Pow2(j.root), Pow2(j.lens[s]), Key(j.lens, s), Leaf(j.ty, s, j.lens[s]))
    ensures Findable(j, u, s)
    ensures Coded(j, o) && o != s && j.lens[o] <= j.lens[s] && Findable(j, t, o) ==> Findable(j, u, o)
  {
    hide Key, Pow2, Kraft, Leaf;
    if Coded(j, o) && o != s && j.lens[o] <= j.lens[s] && Findable(j, t, o) {
      forall x | 0 <= x < Pow2(j.root) && x % Pow2(j.lens[o]) == Key(j.lens, o)
        ensures u[x] == Leaf(j.ty, o, j.lens[o])
      {
        if x % Pow2(j.lens[s]) == Key(j.lens, s) {
          KeysDisjoint(j.lens, j.top, o, s, x);
        }
      }
    }
  }

  /** The current sub-table. */
  datatype Sub = Sub(next: nat, curr: nat, low: nat)

  /** The root slot `low` leads to the current sub-table. */
  ghost predicate Current(j: Job, t: seq<Slot>, b: Sub) {
    && Pow2(j.root) <= b.next && b.next + Pow2(b.curr) <= |t| && b.low < Pow2(j.root) && 1 <= b.curr <= MAXBITS
    && t[b.low] == Entry(b.curr, j.root, b.next)
  }

  /** Earlier sub-tables end before the current one begins. */
  ghost predicate Before(j: Job, t: seq<Slot>, b: Sub, s: nat)
    requires Good(j) && Coded(j, s)
  {
    j.lens[s] > j.root && RootOf(j, s) != b.low ==>
        RootOf(j, s) < |t| && t[RootOf(j, s)].Entry? && t[RootOf(j, s)].val + Pow2(t[RootOf(j, s)].op) <= b.next
  }

  lemma RootOfBelow(j: Job, s: nat)
    requires s < |j.lens|
    ensures RootOf(j, s) < Pow2(j.root)
  {
    hide Key, Pow2;
    PowPositive(j.root);
  }

  /** Filling the current sub-table for `s` places it. */
  lemma SubFillPlaces(j: Job, t: seq<Slot>, u: seq<Slot>, b: Sub, s: nat)
    requires Good(j) && Coded(j, s) && j.root < j.lens[s] <= j.root + b.curr && Current(j, t, b)
    requires RootOf(j, s) == b.low
    requires Filled(t, u, b.next, Pow2(b.curr), Pow2(SubLen(j, s)), SubKey(j, s), Leaf(j.ty, s, SubLen(j, s)))
    ensures Findable(j, u, s) && Current(j, u, b)
  {
    hide Key, Pow2, Kraft, Leaf;
    var key := Key(j.lens, s);
    KeyBelow(j.lens, s);
    PowPositive(j.root);
    forall y | 0 <= y < Pow2(b.curr) && (b.low + Pow2(j.root) * y) % Pow2(j.lens[s]) == key
      ensures u[b.next + y] == Leaf(j.ty, s, SubLen(j, s))
    {
      SubIndex(j.root, j.lens[s], key, y);
    }
  }

  /** ... and disturbs no other code. */
  lemma SubFillKeeps(j: Job, t: seq<Slot>, u: seq<Slot>, b: Sub, s: nat, o: nat)
    requires Good(j) && Coded(j, s) && j.root < j.lens[s] <= j.root + b.curr && Current(j, t, b)
    requires RootOf(j, s) == b.low
    requires Filled(t, u, b.next, Pow2(b.curr), Pow2(SubLen(j, s)), SubKey(j, s), Leaf(j.ty, s, SubLen(j, s)))
    requires Coded(j, o) && o != s && j.lens[o] <= j.lens[s] && Findable(j, t, o) && Before(j, t, b, o)
    ensures Findable(j, u, o) && Before(j, u, b, o)
  {
    hide Key, Pow2, Kraft, Leaf;
    RootOfBelow(j, o);
    if j.lens[o] > j.root {
      var p := RootOf(j, o);
      assert u[p] == t[p];
      KeyBelow(j.lens, s);
      forall y | 0 <= y < Pow2(t[p].op) && (p + Pow2(j.root) * y) % Pow2(j.lens[o]) == Key(j.lens, o)
        ensures u[t[p].val + y] == t[t[p].val + y]
      {
        if p == b.low {
          NotTheirs(j, s, o, y);
        }
      }
    }
  }

  /** In a shared sub-table an index that continues one code does not continue the other. */
  lemma NotTheirs(j: Job, s: nat, o: nat, y: nat)
    requires Good(j) && Coded(j, s) && Coded(j, o) && o != s && j.root < j.lens[o] <= j.lens[s]
    requires RootOf(j, o) == RootOf(j, s) && (RootOf(j, o) + Pow2(j.root) * y) % Pow2(j.lens[o]) == Key(j.lens, o)
    ensures y % Pow2(SubLen(j, s)) != SubKey(j, s)
  {
    hide Key, Pow2, Kraft;
    KeyBelow(j.lens, s);
    PowPositive(j.root);
    SubIndex(j.root, j.lens[s], Key(j.lens, s), y);
    if (RootOf(j, s) + Pow2(j.root) * y) % Pow2(j.lens[s]) == Key(j.lens, s) {
      KeysDisjoint(j.lens, j.top, o, s, RootOf(j, s) + Pow2(j.root) * y);
    }
  }

  // ---- starting a sub-table ----

  /**
   * A new link for the root index of `s` disturbs nothing placed before, and all of it lies before the new sub-table.
   */
  lemma LinkKeeps(j: Job, t: seq<Slot>, b: Sub, s: nat, o: nat, e: Slot)
    requires Good(j) && Coded(j, s) && j.lens[s] > j.root && b.low == RootOf(j, s) < |t| && Pow2(j.root) <= b.next
    requires Coded(j, o) && o != s && j.lens[o] <= j.lens[s] && Findable(j, t, o)
    requires j.lens[o] > j.root ==> RootOf(j, o) != b.low && t[RootOf(j, o)].val + Pow2(t[RootOf(j, o)].op) <= b.next
    ensures Findable(j, t[b.low := e], o) && Before(j, t[b.low := e], b, o)
  {
    hide Key, Pow2, Kraft, Leaf;
    var u := t[b.low := e];
    RootOfBelow(j, s);
    if j.lens[o] <= j.root {
      forall x | 0 <= x < Pow2(j.root) && x % Pow2(j.lens[o]) == Key(j.lens, o)
        ensures u[x] == t[x]
      {
        if x == b.low {
          LowOfLow(Key(j.lens, s), j.lens[o], j.root);
          KeyBelow(j.lens, s);
          ModSmall(Key(j.lens, s), Pow2(j.lens[s]));
          KeysDisjoint(j.lens, j.top, o, s, Key(j.lens, s));
        }
      }
    } else {
      RootOfBelow(j, o);
    }
  }
}
