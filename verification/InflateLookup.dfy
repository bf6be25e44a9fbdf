/** Decoding with the table inflate_table builds: the LEN and DIST lookups of inflate.c. */
module InflateLookup {
  import opened Base
  import opened BitString
  import opened BitIO
  import opened Radix
  import opened InverseBwt
  import opened CanonicalCode
  import opened LsbCode
  import opened InflateTable
  import opened SubTables
  import opened TableSize

  ghost predicate AllFindable(j: Job, t: seq<Slot>) {
    Good(j) && Pow2(j.root) <= |t| && forall s :: Coded(j, s) ==> Findable(j, t, s)
  }

  /** The bits held, zeros above them. */
  function Padded(b: Bits, n: nat): (p: Bits)
    ensures |p| == n
  {
    if n <= |b| then b[..n] else b + Zeros(n - |b|)
  }

  /** BITS(i + n) >> i. */
  function Peek(b: Bits, i: nat, n: nat): nat {
    LsbNat(Padded(b, i + n)[i..])
  }

  /** What a look at the table with the bits `b` gives: nothing until the entry's bits are all there. */
  ghost function Look(root: nat, t: seq<Slot>, b: Bits): Option<(Slot, nat)> {
    var x := Peek(b, 0, root);
    if x >= |t| || t[x].Unset? || t[x].bits > |b| then None
    else if 1 <= t[x].op <= 15 then
      var y := t[x].val + Peek(b, t[x].bits, t[x].op);
      if y >= |t| || t[y].Unset? || t[x].bits + t[y].bits > |b| then None else Some((t[y], t[x].bits + t[y].bits))
    else Some((t[x], t[x].bits))
  }

  lemma {:induction false} LsbConcat(a: Bits, b: Bits)
    ensures LsbNat(a + b) == LsbNat(a) + Pow2(|a|) * LsbNat(b)
    decreases |b|
  {
    hide LsbNat, Pow2;
    if b == [] {
      assert a + b == a;
      LsbNothing();
    } else {
      var k := |b| - 1;
      LsbConcat(a, b[..k]);
      assert a + b == (a + b[..k]) + [b[k]] && b == b[..k] + [b[k]];
      LsbPush(a + b[..k], b[k]);
      LsbPush(b[..k], b[k]);
      Pow2Add(|a|, k);
      Distributes(Pow2(|a|), LsbNat(b[..k]), Pow2(k));
    }
  }

  lemma Distributes(x: nat, y: nat, z: nat)
    ensures x * (y + z) == x * y + x * z
  {
  }

  lemma PaddedPrefix(b: Bits, m: nat, n: nat)
    requires m <= n
    ensures Padded(b, n)[..m] == Padded(b, m)
  {
  }

  /** The bits, zero-padded, begin with the code of `s`. */
  ghost predicate Begins(j: Job, b: Bits, s: nat)
    requires s < |j.lens|
  {
    Padded(b, j.lens[s]) == CodeBits(j.lens, s)
  }

  lemma LookRoot(j: Job, t: seq<Slot>, b: Bits, s: nat)
    requires AllFindable(j, t) && Coded(j, s) && j.lens[s] <= j.root && Begins(j, b, s)
    ensures Look(j.root, t, b) == if j.lens[s] <= |b| then Some((Leaf(j.ty, s, j.lens[s]), j.lens[s] as nat)) else None
  {
    hide LsbNat, Pow2, Kraft, CodeBits, Padded, Leaf;
    var p := Padded(b, j.root);
    assert p[0..] == p && 0 + j.root == j.root;
    PaddedPrefix(b, j.lens[s], j.root);
    LsbMod(p, j.lens[s]);
    LsbLess(p);
    assert Findable(j, t, s);
  }

  /** The root index of bits that begin with a long code. */
  lemma RootPeek(j: Job, b: Bits, s: nat)
    requires Good(j) && Coded(j, s) && j.lens[s] > j.root && Begins(j, b, s)
    ensures Peek(b, 0, j.root) == RootOf(j, s)
  {
    hide LsbNat, Pow2, Kraft, CodeBits, Padded;
    var p, code := Padded(b, j.root), CodeBits(j.lens, s);
    assert p[0..] == p && 0 + j.root == j.root;
    PaddedPrefix(b, j.root, j.lens[s]);
    LsbMod(code, j.root);
  }

  /** The two indices of a look, x and y, as numbers. */
  lemma TwoIndices(q: Bits, root: nat, n: nat, x: nat, y: nat, z: nat)
    requires root <= n <= |q| && x == LsbNat(q[..root]) && y == LsbNat(q[root..]) && z == LsbNat(q[..n])
    ensures y < Pow2(|q| - root) && (x + Pow2(root) * y) % Pow2(n) == z
  {
    hide LsbNat, Pow2;
    assert q == q[..root] + q[root..];
    LsbConcat(q[..root], q[root..]);
    LsbMod(q, n);
    LsbLess(q[root..]);
  }

  /** The sub-table index of bits that begin with a long code continues that code. */
  lemma SubPeek(j: Job, b: Bits, s: nat, c: nat)
    requires Good(j) && Coded(j, s) && j.root < j.lens[s] <= j.root + c && Begins(j, b, s)
    ensures Peek(b, j.root, c) < Pow2(c)
    ensures (RootOf(j, s) + Pow2(j.root) * Peek(b, j.root, c)) % Pow2(j.lens[s]) == Key(j.lens, s)
  {
    hide LsbNat, Pow2, Kraft, CodeBits, Padded, RootOf, FitsKraft;
    RootPeek(j, b, s);
    var p, q := Padded(b, j.root), Padded(b, j.root + c);
    assert p[0..] == p && 0 + j.root == j.root;
    PaddedPrefix(b, j.root, j.root + c);
    PaddedPrefix(b, j.lens[s], j.root + c);
    TwoIndices(q, j.root, j.lens[s], RootOf(j, s), Peek(b, j.root, c), Key(j.lens, s));
  }

  lemma LookSub(j: Job, t: seq<Slot>, b: Bits, s: nat)
    requires AllFindable(j, t) && Coded(j, s) && j.lens[s] > j.root && Begins(j, b, s)
    ensures Look(j.root, t, b) ==
      if j.lens[s] <= |b| then Some((Leaf(j.ty, s, SubLen(j, s)), j.lens[s] as nat)) else None
  {
    hide Pow2, Kraft, Key, Peek, Leaf, Begins, RootOf;
    assert Findable(j, t, s);
    RootPeek(j, b, s);
    var x := RootOf(j, s);
    SubPeek(j, b, s, t[x].op);
    assert t[t[x].val + Peek(b, j.root, t[x].op)] == Leaf(j.ty, s, SubLen(j, s));
  }

  /** Of a complete code, some code begins any bits, padded long enough. */
  lemma CompleteCovers(j: Job, x: Bits) returns (s: nat)
    requires Good(j) && Kraft(j.lens, j.top) == Pow2(j.top) && |x| == j.top
    ensures Coded(j, s) && CodeBits(j.lens, s) == x[..j.lens[s]]
  {
    hide Kraft, Occupied, Below, LastToFirst, ToNat, Pow2, Shr, CodeOf;
    var v := ToNat(x);
    OccupiedIsKraft(j.lens, j.top);
    ToNatBound(x);
    ShrNone(v);
    var n := FindLength(j, v, j.top);
    s := FindSymbol(j.lens, v, n, j.top);
    NatRoundTrip(x);
    ToBitsPrefix(v, j.top, n);
  }

  /** Whatever bits are held, one symbol of a complete code is the only one they can be the beginning of. */
  lemma SomeBegins(j: Job, b: Bits) returns (s: nat)
    requires Good(j) && Kraft(j.lens, j.top) == Pow2(j.top)
    ensures Coded(j, s) && Begins(j, b, s)
  {
    hide Kraft, CodeBits, Pow2;
    s := CompleteCovers(j, Padded(b, j.top));
    PaddedPrefix(b, j.lens[s], j.top);
  }

  /** The entry a symbol has at the level where it is found. */
  function EntryOf(j: Job, s: nat): Slot
    requires Good(j) && Coded(j, s)
  {
    Leaf(j.ty, s, if j.lens[s] <= j.root then j.lens[s] else SubLen(j, s))
  }

  /**
   * Bits that hold a whole code are decoded to its symbol, through the root table and at most one sub-table, using up
   * exactly the code.
   */
  lemma LookupFindsCode(j: Job, t: seq<Slot>, b: Bits, s: nat)
    requires AllFindable(j, t) && Coded(j, s) && CodeBits(j.lens, s) <= b
    ensures Look(j.root, t, b) == Some((EntryOf(j, s), j.lens[s] as nat))
  {
    hide CodeBits, Kraft, Leaf, Look;
    assert Padded(b, j.lens[s]) == b[..j.lens[s]] == CodeBits(j.lens, s);
    if j.lens[s] <= j.root {
      LookRoot(j, t, b, s);
    } else {
      LookSub(j, t, b, s);
    }
  }

  /**
   * On a complete code a look succeeds exactly when the bits held contain a whole
   * code: the zero padding is never mistaken for input.
   */
  lemma LookupNeedsWholeCode(j: Job, t: seq<Slot>, b: Bits) returns (s: nat)
    requires AllFindable(j, t) && Kraft(j.lens, j.top) == Pow2(j.top)
    ensures Coded(j, s) && (Look(j.root, t, b).Some? <==> CodeBits(j.lens, s) <= b)
    ensures Look(j.root, t, b).Some? ==> Look(j.root, t, b) == Some((EntryOf(j, s), j.lens[s] as nat))
  {
    hide CodeBits, Kraft, Leaf, Look, Pow2;
    s := SomeBegins(j, b);
    if j.lens[s] <= j.root {
      LookRoot(j, t, b, s);
    } else {
      LookSub(j, t, b, s);
    }
  }

  /** Every slot of the root table is a symbol's, or leads to the sub-table of a longer one. */
  lemma RootHolds(j: Job, t: seq<Slot>, x: nat) returns (s: nat)
    requires AllFindable(j, t) && Kraft(j.lens, j.top) == Pow2(j.top) && x < Pow2(j.root)
    ensures Coded(j, s) && if j.lens[s] <= j.root then t[x] == Leaf(j.ty, s, j.lens[s]) else RootOf(j, s) == x
  {
    hide CodeBits, Kraft, Leaf, LsbNat, Pow2;
    var b := LsbBits(x, j.root);
    LsbRoundTrip(x, j.root);
    s := SomeBegins(j, b);
    assert Findable(j, t, s);
    if j.lens[s] <= j.root {
      LsbMod(b, j.lens[s]);
    } else {
      LsbMod(CodeBits(j.lens, s), j.root);
      PaddedPrefix(b, j.root, j.lens[s]);
      assert Padded(b, j.root) == b;
    }
  }

  /** No slot of the root table is left unwritten. */
  lemma RootWritten(j: Job, t: seq<Slot>, x: nat)
    requires AllFindable(j, t) && Kraft(j.lens, j.top) == Pow2(j.top) && x < Pow2(j.root)
    ensures t[x].Entry?
  {
    hide CodeBits, Kraft, Leaf, Pow2;
    var s := RootHolds(j, t, x);
    assert Findable(j, t, s);
  }

  /** No slot of a sub-table is left unwritten. */
  lemma SubWritten(j: Job, t: seq<Slot>, o: nat, y: nat)
    requires AllFindable(j, t) && Kraft(j.lens, j.top) == Pow2(j.top) && Coded(j, o) && j.lens[o] > j.root
    requires y < Pow2(t[RootOf(j, o)].op)
    ensures t[t[RootOf(j, o)].val + y].Entry?
  {
    hide CodeBits, Kraft, Leaf, LsbNat, Pow2;
    assert Findable(j, t, o);
    var p := RootOf(j, o);
    var c := t[p].op;
    RootOfBelow(j, o);
    var b1, b2 := LsbBits(p, j.root), LsbBits(y, c);
    LsbRoundTrip(p, j.root);
    LsbRoundTrip(y, c);
    var b := b1 + b2;
    LsbConcat(b1, b2);
    var s := SomeBegins(j, b);
    assert Findable(j, t, s);
    LsbMod(b, j.root);
    assert b[..j.root] == b1;
    if j.lens[s] <= j.root {
      LsbMod(b1, j.lens[s]);
      assert b1[..j.lens[s]] == b[..j.lens[s]];
      KeyBelow(j.lens, o);
      LowOfLow(Key(j.lens, o), j.lens[s], j.root);
      ModSmall(Key(j.lens, o), Pow2(j.lens[o]));
      KeysDisjoint(j.lens, j.top, s, o, Key(j.lens, o));
    } else {
      LsbMod(CodeBits(j.lens, s), j.root);
      PaddedPrefix(b, j.root, j.lens[s]);
      assert Padded(b, j.root) == b1;
      assert RootOf(j, s) == p;
      LsbMod(b, j.lens[s]);
      assert Padded(b, j.lens[s]) == b[..j.lens[s]];
    }
  }
}
