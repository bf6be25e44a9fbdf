/** fallbackSort of blocksort.c: prefix doubling over header-delimited buckets. */
module FallbackSort {
  import opened Base
  import opened Rotations
  import opened Radix
  import Q = QuickSort

  // ---- header bits ----

  /** The header at or before position `i`. */
  function Head(bits: seq<bool>, i: nat): (j: nat)
    requires i < |bits|
    ensures j <= i
  {
    if bits[i] || i == 0 then i else Head(bits, i - 1)
  }

  lemma {:induction false} HeadBetween(bits: seq<bool>, i: nat, j: nat)
    requires i <= j < |bits|
    requires forall k :: i < k <= j ==> !bits[k]
    ensures Head(bits, i) == Head(bits, j)
  {
    if i < j {
      HeadBetween(bits, i, j - 1);
    }
  }

  lemma {:induction false} NoHeaderAfterHead(bits: seq<bool>, j: nat)
    requires j < |bits|
    ensures forall k :: Head(bits, j) < k <= j ==> !bits[k]
  {
    if !bits[j] && j > 0 {
      NoHeaderAfterHead(bits, j - 1);
    }
  }

  lemma {:induction false} HeadOrEqual(bits: seq<bool>, i: nat, j: nat)
    requires i < j < |bits| && (exists k :: i < k <= j && bits[k])
    ensures i < Head(bits, j)
  {
    NoHeaderAfterHead(bits, j);
  }

  /** The header bits delimit exactly the classes that agree on their first `h` characters. */
  ghost predicate Exact(b: seq<byte>, p: seq<int>, h: nat, bits: seq<bool>)
    requires ValidOrder(b, p)
  {
    && |bits| >= |b| > 0 && bits[0]
    && forall i :: 0 < i < |b| ==> (bits[i] <==> Prefix(b, p[i - 1], h) != Prefix(b, p[i], h))
  }

  /** Positions without a header between them agree. */
  lemma {:induction false} SameClass(b: seq<byte>, p: seq<int>, h: nat, bits: seq<bool>, i: nat, j: nat)
    requires ValidOrder(b, p) && Exact(b, p, h, bits) && i <= j < |b|
    requires forall k :: i < k <= j ==> !bits[k]
    ensures Prefix(b, p[i], h) == Prefix(b, p[j], h)
  {
    if i < j {
      SameClass(b, p, h, bits, i, j - 1);
    }
  }

  /** Positions that agree have no header between them. */
  lemma NoHeaderInside(b: seq<byte>, p: seq<int>, h: nat, bits: seq<bool>, i: nat, j: nat, k: nat)
    requires ValidOrder(b, p) && Exact(b, p, h, bits) && SortedTo(b, p, h) && i < k <= j < |b|
    requires Prefix(b, p[i], h) == Prefix(b, p[j], h)
    ensures !bits[k]
  {
    var s := Prefix(b, p[i], h);
    LexReflexive(s);
    assert Lex(s, Prefix(b, p[k], h)) && Lex(Prefix(b, p[k], h), s);
    assert Lex(s, Prefix(b, p[k - 1], h)) && Lex(Prefix(b, p[k - 1], h), s);
    LexAntisymmetric(s, Prefix(b, p[k], h));
    LexAntisymmetric(s, Prefix(b, p[k - 1], h));
  }

  /** Comparing headers is comparing the first `h` characters. */
  lemma HeadsCompare(b: seq<byte>, p: seq<int>, h: nat, bits: seq<bool>, i: nat, j: nat)
    requires ValidOrder(b, p) && Exact(b, p, h, bits) && SortedTo(b, p, h) && i <= j < |b|
    ensures Head(bits, i) <= Head(bits, j)
    ensures Head(bits, i) == Head(bits, j) <==> Prefix(b, p[i], h) == Prefix(b, p[j], h)
  {
    if forall k :: i < k <= j ==> !bits[k] {
      HeadBetween(bits, i, j);
      SameClass(b, p, h, bits, i, j);
    } else {
      var k :| i < k <= j && bits[k];
      HeadOrEqual(bits, i, j);
      if Prefix(b, p[i], h) == Prefix(b, p[j], h) {
        NoHeaderInside(b, p, h, bits, i, j, k);
      }
    }
  }

  // ---- the eclass vector ----

  /** fmap[i] - H, wrapped. */
  function Back(n: nat, x: nat, h: nat): (y: nat)
    requires x < n && h <= n
    ensures y < n
  {
    if x < h then x + n - h else x - h
  }

  /** eclass[x] is the header of the class of the rotation `h` places after `x`. */
  ghost predicate EclassFor(p: seq<int>, h: nat, bits: seq<bool>, e: seq<int>)
    requires IsPermutation(p) && h <= |p| <= |bits|
  {
    |e| == |p| && forall i :: 0 <= i < |p| ==> e[Back(|p|, p[i], h)] == Head(bits, i)
  }

  /** The first `m` entries of fmap have been given their class. */
  ghost predicate EclassTo(p: seq<int>, h: nat, bits: seq<bool>, e: seq<int>, m: nat)
    requires IsPermutation(p) && h <= |p| <= |bits|
  {
    |e| == |p| && m <= |p| && forall i :: 0 <= i < m ==> e[Back(|p|, p[i], h)] == Head(bits, i)
  }

  lemma EclassNext(p: seq<int>, h: nat, bits: seq<bool>, e: seq<int>, m: nat)
    requires IsPermutation(p) && h <= |p| <= |bits| && EclassTo(p, h, bits, e, m) && m < |p|
    ensures EclassTo(p, h, bits, e[Back(|p|, p[m], h) := Head(bits, m)], m + 1)
  {
    forall i | 0 <= i < m
      ensures Back(|p|, p[i], h) != Back(|p|, p[m], h)
    {
      assert p[i] != p[m];
    }
  }

  method FillEclass(fmap: seq<int>, h: nat, bhtab: seq<bool>, eclass: array<int>)
    requires IsPermutation(fmap) && h <= |fmap| == eclass.Length <= |bhtab|
    modifies eclass
    ensures EclassFor(fmap, h, bhtab, eclass[..])
  {
    var j := 0;
    var i := 0;
    while i < |fmap|
      invariant 0 <= i <= |fmap| && EclassTo(fmap, h, bhtab, eclass[..], i)
      invariant j == if i == 0 then 0 else Head(bhtab, i - 1)
    {
      if bhtab[i] {
        j := i;
      }
      var k := fmap[i] - h;
      if k < 0 {
        k := k + |fmap|;
      }
      assert j == Head(bhtab, i);
      assert k == Back(|fmap|, fmap[i], h);
      EclassNext(fmap, h, bhtab, eclass[..], i);
      ghost var e := eclass[..];
      eclass[k] := j;
      assert eclass[..] == e[k := j];
      i := i + 1;
    }
  }

  /** The keys of a pass: ordered as the second `h` characters are. */
  ghost predicate KeysFor(b: seq<byte>, h: nat, e: seq<int>) {
    && |e| == |b|
    && forall x, y :: 0 <= x < |b| && 0 <= y < |b| ==>
         (e[x] <= e[y] <==> Lex(Prefix(b, Advance(|b|, x, h), h), Prefix(b, Advance(|b|, y, h), h)))
  }

  lemma EclassIsKeys(b: seq<byte>, p: seq<int>, h: nat, bits: seq<bool>, e: seq<int>)
    requires ValidOrder(b, p) && Exact(b, p, h, bits) && SortedTo(b, p, h)
    requires h <= |b| <= |bits| && EclassFor(p, h, bits, e)
    ensures KeysFor(b, h, e)
  {
    hide Lex, Prefix, Advance, Head, Exact, SortedTo, EclassFor;
    EclassSize(p, h, bits, e);
    forall x, y | 0 <= x < |b| && 0 <= y < |b|
      ensures e[x] <= e[y] <==> Lex(Prefix(b, Advance(|b|, x, h), h), Prefix(b, Advance(|b|, y, h), h))
    {
      var i := EclassOf(b, p, h, bits, e, x);
      var j := EclassOf(b, p, h, bits, e, y);
      KeysAgree(b, p, h, bits, i, j);
    }
  }

  lemma EclassSize(p: seq<int>, h: nat, bits: seq<bool>, e: seq<int>)
    requires IsPermutation(p) && h <= |p| <= |bits| && EclassFor(p, h, bits, e)
    ensures |e| == |p|
  {
  }

  /** Where the position `h` further on is listed, and its class. */
  lemma EclassOf(b: seq<byte>, p: seq<int>, h: nat, bits: seq<bool>, e: seq<int>, x: nat) returns (i: nat)
    requires ValidOrder(b, p) && h <= |b| <= |bits| && EclassFor(p, h, bits, e) && x < |b|
    ensures x < |e| && i < |b| == |p| && p[i] == Advance(|b|, x, h) && e[x] == Head(bits, i)
  {
    hide Head;
    i := PermutationOnto(p, Advance(|b|, x, h));
    AdvanceClosed(|b|, x, h);
  }

  lemma KeysAgree(b: seq<byte>, p: seq<int>, h: nat, bits: seq<bool>, i: nat, j: nat)
    requires ValidOrder(b, p) && Exact(b, p, h, bits) && SortedTo(b, p, h) && i < |b| && j < |b|
    ensures Head(bits, i) <= Head(bits, j) <==> Lex(Prefix(b, p[i], h), Prefix(b, p[j], h))
  {
    if i <= j {
      HeadsCompare(b, p, h, bits, i, j);
      LexReflexive(Prefix(b, p[i], h));
    } else {
      HeadsCompare(b, p, h, bits, j, i);
      LexReflexive(Prefix(b, p[i], h));
      if Lex(Prefix(b, p[i], h), Prefix(b, p[j], h)) {
        LexAntisymmetric(Prefix(b, p[i], h), Prefix(b, p[j], h));
      }
    }
  }

  // ---- scanning the header bits, a 32-bit word at a time where possible ----

  const WORD := 32

  /** The table covers the block, the sentinels behind it, and whole words. */
  ghost predicate TableOk(bits: seq<bool>, n: nat) {
    && |bits| % WORD == 0 && n + 2 * WORD <= |bits|
    && bits[n] && !bits[n + 1]
  }

  /** WORD_BH(k) == 0xffffffff, or == 0 when `v` is false, for an aligned k. */
  method WordIs(bhtab: array<bool>, k: nat, v: bool) returns (same: bool)
    requires k + WORD <= bhtab.Length
    ensures same <==> forall i :: k <= i < k + WORD ==> bhtab[i] == v
  {
    var j := 0;
    while j < WORD && bhtab[k + j] == v
      invariant 0 <= j <= WORD
      invariant forall i :: k <= i < k + j ==> bhtab[i] == v
    {
      j := j + 1;
    }
    same := j == WORD;
  }

  /** Step over the bits equal to `v`, up to the stop bit at `limit`. */
  method SkipBits(bhtab: array<bool>, k0: nat, v: bool, ghost limit: nat) returns (k: nat)
    requires k0 <= limit && limit + WORD <= bhtab.Length && bhtab.Length % WORD == 0
    requires bhtab[limit] != v
    ensures k0 <= k <= limit && bhtab[k] != v
    ensures forall i :: k0 <= i < k ==> bhtab[i] == v
  {
    k := k0;
    while bhtab[k] == v && k % WORD != 0
      invariant k0 <= k <= limit
      invariant forall i :: k0 <= i < k ==> bhtab[i] == v
      decreases limit - k
    {
      k := k + 1;
    }
    if bhtab[k] == v {
      var full := WordIs(bhtab, k, v);
      while full
        invariant k0 <= k <= limit && k % WORD == 0
        invariant forall i :: k0 <= i < k ==> bhtab[i] == v
        invariant full <==> forall i :: k <= i < k + WORD ==> bhtab[i] == v
        decreases limit - k
      {
        k := k + WORD;
        full := WordIs(bhtab, k, v);
      }
      while bhtab[k] == v
        invariant k0 <= k <= limit
        invariant forall i :: k0 <= i < k ==> bhtab[i] == v
        decreases limit - k
      {
        k := k + 1;
      }
    }
  }

  /** l..r is the first bucket of two or more entries at or after `m`. */
  ghost predicate BucketAt(bits: seq<bool>, n: nat, m: nat, l: int, r: int) {
    && m <= l < r < n < |bits|
    && (forall i :: m <= i <= l ==> bits[i])
    && (forall i :: l < i <= r ==> !bits[i])
    && bits[r + 1]
  }

  method NextBucket(bhtab: array<bool>, n: nat, m: nat) returns (found: bool, l: int, r: int)
    requires TableOk(bhtab[..], n) && m <= n && bhtab[m]
    ensures found ==> BucketAt(bhtab[..], n, m, l, r)
    ensures !found ==> forall i :: m <= i < n ==> bhtab[..][i]
  {
    assert bhtab[..][n] == bhtab[n] && bhtab[..][n + 1] == bhtab[n + 1];
    var k := SkipBits(bhtab, m, true, n + 1);
    l, r := k - 1, k;
    found := l < n;
    if found {
      k := SkipBits(bhtab, k, false, n);
      r := k - 1;
    }
  }

  // ---- one pass: refine every bucket by the keys ----

  /** Every entry still sits in the bucket of its class. */
  ghost predicate InClasses(p: seq<int>, bits0: seq<bool>, cls: seq<int>) {
    && IsPermutation(p) && |cls| == |p| <= |bits0|
    && forall i :: 0 <= i < |p| ==> cls[p[i]] == Head(bits0, i)
  }

  /** Below `m` the buckets of `bits0` are sorted by key and split where the key changes; above it nothing changed. */
  ghost predicate Refined(p: seq<int>, bits: seq<bool>, bits0: seq<bool>, cls: seq<int>, e: seq<int>, m: nat) {
    && InClasses(p, bits0, cls) && |e| == |p| && |bits| == |bits0| && m <= |p|
    && (forall i :: m <= i < |bits| ==> bits[i] == bits0[i])
    && (m > 0 ==> bits[0])
    && (forall i :: 0 < i < m ==> (bits[i] <==> bits0[i] || e[p[i - 1]] != e[p[i]]))
    && (forall i, j :: 0 <= i < j < m && Head(bits0, i) == Head(bits0, j) ==> e[p[i]] <= e[p[j]])
  }

  lemma BucketHead(bits0: seq<bool>, n: nat, m: nat, l: nat, r: nat, k: nat)
    requires BucketAt(bits0, n, m, l, r) && l <= k <= r
    ensures Head(bits0, k) == l
  {
    HeadBetween(bits0, l, k);
  }

  /** Rearranging inside one bucket leaves every entry in its class. */
  lemma StillInClasses(p: seq<int>, q: seq<int>, bits0: seq<bool>, cls: seq<int>, n: nat, m: nat, l: nat, r: nat)
    requires InClasses(p, bits0, cls) && n == |p| && BucketAt(bits0, n, m, l, r) && Q.Rearranged(q, p, l, r)
    ensures InClasses(q, bits0, cls)
  {
    PermutationFromMultiset(p, q);
    forall i | 0 <= i < |q|
      ensures cls[q[i]] == Head(bits0, i)
    {
      if l <= i <= r {
        var j := Q.RearrangedSource(q, p, l, r, i);
        BucketHead(bits0, n, m, l, r, i);
        BucketHead(bits0, n, m, l, r, j);
      }
    }
  }

  ghost predicate Marked(bits: seq<bool>, bits': seq<bool>, p: seq<int>, e: seq<int>, l: nat, r: nat) {
    && |bits'| == |bits| && r < |bits| && r < |p| && Q.Indexes(p, e)
    && (forall i :: 0 <= i < |bits| && !(l <= i <= r) ==> bits'[i] == bits[i])
    && (forall i {:trigger bits'[i]} :: l <= i <= r ==> (bits'[i] <==> i == l || bits[i] || e[p[i - 1]] != e[p[i]]))
  }

  /** The key of entry `k` differs from the one before it. */
  ghost predicate Changes(p: seq<int>, e: seq<int>, k: nat)
    requires k < |p| && Q.Indexes(p, e)
  {
    k > 0 && e[p[k - 1]] != e[p[k]]
  }

  /** The scan of fallbackSort that sets a header wherever the key changes. */
  method MarkChanges(fmap: seq<int>, eclass: seq<int>, bhtab: array<bool>, l: nat, r: nat)
    requires l <= r < |fmap| <= bhtab.Length && Q.Indexes(fmap, eclass)
    requires forall i :: 0 <= i < |eclass| ==> eclass[i] >= 0
    modifies bhtab
    ensures Marked(old(bhtab[..]), bhtab[..], fmap, eclass, l, r)
  {
    ghost var bits := bhtab[..];
    var cc := -1;
    var i := l;
    while i <= r
      invariant l <= i <= r + 1
      invariant cc == if i == l then -1 else eclass[fmap[i - 1]]
      invariant forall k {:trigger bhtab[k]} :: 0 <= k < bhtab.Length && !(l <= k < i) ==> bhtab[k] == bits[k]
      invariant forall k {:trigger bhtab[k]} :: l <= k < i ==>
        bhtab[k] == (k == l || bits[k] || Changes(fmap, eclass, k))
    {
      assert bhtab[i] == bits[i];
      var cc1 := eclass[fmap[i]];
      if cc != cc1 {
        bhtab[i] := true;
        cc := cc1;
      }
      assert bhtab[i] == (i == l || bits[i] || Changes(fmap, eclass, i));
      i := i + 1;
    }
  }

  /** What one refined bucket adds. */
  lemma BucketRefined(p: seq<int>, q: seq<int>, bits: seq<bool>, bits': seq<bool>, bits0: seq<bool>, cls: seq<int>,
                      e: seq<int>, n: nat, m: nat, l: nat, r: nat)
    requires Refined(p, bits, bits0, cls, e, m) && n == |p| && BucketAt(bits, n, m, l, r)
    requires Q.Rearranged(q, p, l, r) && Q.Indexes(q, e) && Q.SortedBy(q, e, l, r)
    requires Marked(bits, bits', q, e, l, r)
    ensures Refined(q, bits', bits0, cls, e, r + 1)
  {
    assert BucketAt(bits0, n, m, l, r) by {
      assert forall i :: m <= i <= r + 1 ==> bits[i] == bits0[i];
    }
    StillInClasses(p, q, bits0, cls, n, m, l, r);
    forall i | 0 < i < r + 1
      ensures bits'[i] <==> bits0[i] || e[q[i - 1]] != e[q[i]]
    {
      if i < m {
        assert q[i - 1] == p[i - 1] && q[i] == p[i];
      }
    }
    forall i, j | 0 <= i < j < r + 1 && Head(bits0, i) == Head(bits0, j)
      ensures e[q[i]] <= e[q[j]]
    {
      HeadsApart(bits0, n, m, l, r, i, j);
    }
    assert bits[0] && bits'[0];
  }

  /** Two positions up to r share a header only when both lie below m, or both in l..r. */
  lemma HeadsApart(bits0: seq<bool>, n: nat, m: nat, l: nat, r: nat, i: nat, j: nat)
    requires BucketAt(bits0, n, m, l, r) && i < j <= r
    ensures j < m || l <= i || Head(bits0, i) < Head(bits0, j)
  {
    if m <= j && i < l {
      var k := if j <= l then j else l;
      assert bits0[k];
      HeadOrEqual(bits0, i, j);
    }
  }

  lemma SingletonsRefined(p: seq<int>, bits: seq<bool>, bits0: seq<bool>, cls: seq<int>, e: seq<int>, m: nat)
    requires Refined(p, bits, bits0, cls, e, m) && (forall i :: m <= i < |p| ==> bits[i])
    ensures Refined(p, bits, bits0, cls, e, |p|)
  {
    forall i, j | 0 <= i < j < |p|
      ensures j < m || Head(bits0, i) < Head(bits0, j)
    {
      if m <= j {
        assert bits0[j];
      }
    }
  }

  /** Sort one bucket by key and mark where the key changes. */
  method RefineBucket(fmap: array<int>, eclass: seq<int>, bhtab: array<bool>, n: nat, m: nat, l: nat, r: nat,
                      ghost bits0: seq<bool>, ghost cls: seq<int>)
    requires n == fmap.Length <= 900000 && TableOk(bhtab[..], n) && BucketAt(bhtab[..], n, m, l, r)
    requires Refined(fmap[..], bhtab[..], bits0, cls, eclass, m)
    requires forall i :: 0 <= i < |eclass| ==> eclass[i] >= 0
    modifies fmap, bhtab
    ensures TableOk(bhtab[..], n) && bhtab[..][r + 1]
    ensures Refined(fmap[..], bhtab[..], bits0, cls, eclass, r + 1)
  {
    ghost var p, bits := fmap[..], bhtab[..];
    var peak := Q.QSort3(fmap, eclass, l, r);
    MarkChanges(fmap[..], eclass, bhtab, l, r);
    BucketRefined(p, fmap[..], bits, bhtab[..], bits0, cls, eclass, n, m, l, r);
  }

  /** The inner loop of fallbackSort: refine bucket after bucket; returns nNotDone. */
  method RefinePass(fmap: array<int>, eclass: seq<int>, bhtab: array<bool>, ghost cls: seq<int>) returns (nNotDone: nat)
    requires 0 < fmap.Length <= 900000 && TableOk(bhtab[..], fmap.Length) && bhtab[0]
    requires InClasses(fmap[..], bhtab[..], cls) && |eclass| == fmap.Length
    requires forall i :: 0 <= i < |eclass| ==> eclass[i] >= 0
    modifies fmap, bhtab
    ensures Refined(fmap[..], bhtab[..], old(bhtab[..]), cls, eclass, fmap.Length)
    ensures TableOk(bhtab[..], fmap.Length)
    ensures nNotDone == 0 ==> forall i :: 0 <= i < fmap.Length ==> bhtab[..][i]
  {
    var n := fmap.Length;
    ghost var bits0 := bhtab[..];
    nNotDone := 0;
    var m := 0;
    var found, l, r := NextBucket(bhtab, n, m);
    while found
      invariant 0 <= m <= n && TableOk(bhtab[..], n)
      invariant Refined(fmap[..], bhtab[..], bits0, cls, eclass, m)
      invariant found ==> BucketAt(bhtab[..], n, m, l, r)
      invariant !found ==> forall i :: m <= i < n ==> bhtab[..][i]
      invariant nNotDone == 0 ==> m == 0
      decreases n - m, found
    {
      nNotDone := nNotDone + (r - l + 1);
      RefineBucket(fmap, eclass, bhtab, n, m, l, r, bits0, cls);
      m := r + 1;
      found, l, r := NextBucket(bhtab, n, m);
    }
    SingletonsRefined(fmap[..], bhtab[..], bits0, cls, eclass, m);
  }

  // ---- doubling the depth ----

  /** A pass only moves entries among those that agree so far. */
  lemma PassKeepsPrefix(b: seq<byte>, p0: seq<int>, p: seq<int>, h: nat, bits0: seq<bool>, cls: seq<int>, i: nat)
    requires ValidOrder(b, p0) && Exact(b, p0, h, bits0) && SortedTo(b, p0, h)
    requires InClasses(p0, bits0, cls) && InClasses(p, bits0, cls) && |p| == |p0| && i < |p|
    ensures Prefix(b, p[i], h) == Prefix(b, p0[i], h)
  {
    var j := PermutationOnto(p0, p[i]);
    assert Head(bits0, i) == Head(bits0, j);
    if i <= j {
      HeadsCompare(b, p0, h, bits0, i, j);
    } else {
      HeadsCompare(b, p0, h, bits0, j, i);
    }
  }

  lemma KeysEqual(b: seq<byte>, h: nat, e: seq<int>, x: nat, y: nat)
    requires KeysFor(b, h, e) && x < |b| && y < |b|
    ensures e[x] == e[y] <==> Prefix(b, Advance(|b|, x, h), h) == Prefix(b, Advance(|b|, y, h), h)
  {
    var s, t := Prefix(b, Advance(|b|, x, h), h), Prefix(b, Advance(|b|, y, h), h);
    assert e[x] <= e[y] <==> Lex(s, t);
    assert e[y] <= e[x] <==> Lex(t, s);
    LexReflexive(s);
    if Lex(s, t) && Lex(t, s) {
      LexAntisymmetric(s, t);
    }
  }

  lemma DoubledOrder(b: seq<byte>, h: nat, e: seq<int>, x: nat, y: nat)
    requires KeysFor(b, h, e) && x < |b| && y < |b|
    requires Lex(Prefix(b, x, h), Prefix(b, y, h)) && (Prefix(b, x, h) == Prefix(b, y, h) ==> e[x] <= e[y])
    ensures Lex(Prefix(b, x, h + h), Prefix(b, y, h + h))
  {
    var s, t := Prefix(b, x, h), Prefix(b, y, h);
    var u, v := Prefix(b, Advance(|b|, x, h), h), Prefix(b, Advance(|b|, y, h), h);
    PrefixAdd(b, x, h, h);
    PrefixAdd(b, y, h, h);
    LexConcat(s, t, u, v);
    assert Prefix(b, x, h + h) == s + u && Prefix(b, y, h + h) == t + v;
  }

  lemma DoubledEqual(b: seq<byte>, h: nat, e: seq<int>, x: nat, y: nat)
    requires KeysFor(b, h, e) && x < |b| && y < |b|
    ensures Prefix(b, x, h + h) == Prefix(b, y, h + h) <==> Prefix(b, x, h) == Prefix(b, y, h) && e[x] == e[y]
  {
    var s, t := Prefix(b, x, h), Prefix(b, y, h);
    var u, v := Prefix(b, Advance(|b|, x, h), h), Prefix(b, Advance(|b|, y, h), h);
    PrefixAdd(b, x, h, h);
    PrefixAdd(b, y, h, h);
    KeysEqual(b, h, e, x, y);
    assert Prefix(b, x, h + h) == s + u && Prefix(b, y, h + h) == t + v;
    assert (s + u)[..h] == s && (t + v)[..h] == t && (s + u)[h..] == u && (t + v)[h..] == v;
  }

  /** The depth-`h` state of the log(N) loop. */
  ghost predicate DepthState(b: seq<byte>, p: seq<int>, h: nat, bits: seq<bool>) {
    ValidOrder(b, p) && SortedTo(b, p, h) && Exact(b, p, h, bits) && FirstColumn(b, p)
  }

  lemma PassSorts(b: seq<byte>, p0: seq<int>, p: seq<int>, h: nat, bits0: seq<bool>, bits: seq<bool>, cls: seq<int>,
          e: seq<int>)
    requires DepthState(b, p0, h, bits0) && KeysFor(b, h, e) && |p| == |p0| && Refined(p, bits, bits0, cls, e, |b|)
    requires forall i :: 0 <= i < |b| ==> Prefix(b, p[i], h) == Prefix(b, p0[i], h)
    ensures SortedTo(b, p, h + h)
  {
    forall i, j | 0 <= i < j < |b|
      ensures Lex(Prefix(b, p[i], h + h), Prefix(b, p[j], h + h))
    {
      HeadsCompare(b, p0, h, bits0, i, j);
      DoubledOrder(b, h, e, p[i], p[j]);
    }
  }

  lemma PassDelimits(b: seq<byte>, p0: seq<int>, p: seq<int>, h: nat, bits0: seq<bool>, bits: seq<bool>, cls: seq<int>,
          e: seq<int>)
    requires DepthState(b, p0, h, bits0) && KeysFor(b, h, e) && |p| == |p0| && Refined(p, bits, bits0, cls, e, |b|)
    requires forall i :: 0 <= i < |b| ==> Prefix(b, p[i], h) == Prefix(b, p0[i], h)
    ensures Exact(b, p, h + h, bits)
  {
    forall i | 0 < i < |b|
      ensures bits[i] <==> Prefix(b, p[i - 1], h + h) != Prefix(b, p[i], h + h)
    {
      DoubledEqual(b, h, e, p[i - 1], p[i]);
    }
  }

  /** One pass turns the depth-`h` state into the depth-`2h` state. */
  lemma PassDoubles(b: seq<byte>, p0: seq<int>, p: seq<int>, h: nat, bits0: seq<bool>, bits: seq<bool>, cls: seq<int>,
          e: seq<int>)
    requires h > 0 && DepthState(b, p0, h, bits0) && KeysFor(b, h, e) && InClasses(p0, bits0, cls)
    requires |p| == |p0| && Refined(p, bits, bits0, cls, e, |b|)
    ensures DepthState(b, p, h + h, bits)
  {
    forall i | 0 <= i < |b|
      ensures Prefix(b, p[i], h) == Prefix(b, p0[i], h) && b[p[i]] == b[p0[i]]
    {
      PassKeepsPrefix(b, p0, p, h, bits0, cls, i);
      assert Prefix(b, p[i], h)[0] == b[p[i]] && Prefix(b, p0[i], h)[0] == b[p0[i]];
    }
    PassSorts(b, p0, p, h, bits0, bits, cls, e);
    PassDelimits(b, p0, p, h, bits0, bits, cls, e);
  }

  lemma ClassesOf(p: seq<int>, bits: seq<bool>) returns (cls: seq<int>)
    requires IsPermutation(p) && |p| <= |bits|
    ensures InClasses(p, bits, cls)
  {
    cls := Range(|p|);
    var i := 0;
    while i < |p|
      invariant 0 <= i <= |p| == |cls|
      invariant forall k :: 0 <= k < i ==> cls[p[k]] == Head(bits, k)
    {
      cls := cls[p[i] := Head(bits, i)];
      i := i + 1;
    }
  }

  /** One trip round the log(N) loop of fallbackSort. */
  method Double(fmap: array<int>, eclass: array<int>, bhtab: array<bool>, h: nat, ghost b: seq<byte>)
    returns (nNotDone: nat)
    requires 0 < h <= fmap.Length == eclass.Length <= 900000 && eclass != fmap && |b| == fmap.Length
    requires TableOk(bhtab[..], fmap.Length) && DepthState(b, fmap[..], h, bhtab[..])
    modifies fmap, eclass, bhtab
    ensures TableOk(bhtab[..], fmap.Length) && DepthState(b, fmap[..], h + h, bhtab[..])
    ensures nNotDone == 0 ==> forall i :: 0 <= i < fmap.Length ==> bhtab[..][i]
  {
    ghost var p0, bits0 := fmap[..], bhtab[..];
    ghost var cls := ClassesOf(p0, bits0);
    assert bits0[0];
    FillEclass(fmap[..], h, bhtab[..], eclass);
    ghost var e := eclass[..];
    assert fmap[..] == p0 && bhtab[..] == bits0;
    EclassIsKeys(b, p0, h, bits0, e);
    EclassNonnegative(p0, h, bits0, e);
    nNotDone := RefinePass(fmap, eclass[..], bhtab, cls);
    PassDoubles(b, p0, fmap[..], h, bits0, bhtab[..], cls, e);
  }

  lemma EclassNonnegative(p: seq<int>, h: nat, bits: seq<bool>, e: seq<int>)
    requires IsPermutation(p) && h <= |p| <= |bits| && EclassFor(p, h, bits, e)
    ensures forall x :: 0 <= x < |e| ==> e[x] >= 0
  {
    forall x | 0 <= x < |e|
      ensures e[x] >= 0
    {
      var i := PermutationOnto(p, if x + h < |p| then x + h else x + h - |p|);
      assert Back(|p|, p[i], h) == x;
    }
  }

  /** When every entry has its own header the order is final whatever the depth. */
  lemma AllDistinct(b: seq<byte>, p: seq<int>, h: nat, bits: seq<bool>)
    requires DepthState(b, p, h, bits) && (forall i :: 0 <= i < |b| ==> bits[i])
    ensures SortsRotations(b, p)
  {
    hide Lex, Prefix;
    forall i, j | 0 <= i < j < |b|
      ensures Lex(Prefix(b, p[i], |b|), Prefix(b, p[j], |b|))
    {
      if h <= |b| {
        HeadsCompare(b, p, h, bits, i, j);
        OrderExtends(b, p[i], p[j], h, |b| - h);
      } else {
        OrderAtShorter(b, p[i], p[j], |b|, h - |b|);
      }
    }
  }

  lemma DeepEnough(b: seq<byte>, p: seq<int>, h: nat, bits: seq<bool>)
    requires DepthState(b, p, h, bits) && |b| <= h
    ensures SortsRotations(b, p)
  {
    hide Lex, Prefix;
    forall i, j | 0 <= i < j < |b|
      ensures Lex(Prefix(b, p[i], |b|), Prefix(b, p[j], |b|))
    {
      assert |b| + (h - |b|) == h;
      OrderAtShorter(b, p[i], p[j], |b|, h - |b|);
    }
  }

  // ---- the whole of fallbackSort ----

  /** Clear the header table, mark where buckets start, and plant the sentinels behind the block. */
  method InitHeaders(ftab: array<int>, n: nat) returns (bhtab: array<bool>)
    requires ftab.Length == 257 && forall c :: 0 <= c < 256 ==> 0 <= ftab[c] <= n
    ensures fresh(bhtab) && TableOk(bhtab[..], n)
    ensures forall i :: 0 <= i < n ==> (bhtab[..][i] <==> exists c :: 0 <= c < 256 && ftab[c] == i)
  {
    bhtab := new bool[WORD * (3 + n / WORD)];
    var i := 0;
    while i < WORD * (2 + n / WORD)
      invariant 0 <= i <= WORD * (2 + n / WORD)
      invariant forall k :: 0 <= k < i ==> !bhtab[k]
    {
      bhtab[i] := false;
      i := i + 1;
    }
    i := 0;
    while i < 256
      invariant 0 <= i <= 256
      invariant forall k :: 0 <= k < n ==> (bhtab[k] <==> exists c :: 0 <= c < i && ftab[c] == k)
    {
      bhtab[ftab[i]] := true;
      i := i + 1;
    }
    i := 0;
    while i < 32
      invariant 0 <= i <= 32
      invariant forall k :: 0 <= k < n ==> (bhtab[k] <==> exists c :: 0 <= c < 256 && ftab[c] == k)
      invariant i > 0 ==> bhtab[n] && !bhtab[n + 1]
    {
      bhtab[n + 2 * i] := true;
      bhtab[n + 2 * i + 1] := false;
      i := i + 1;
    }
  }

  /** The headers planted before the first pass. */
  ghost predicate HeadersAtStarts(b: seq<byte>, bits: seq<bool>, starts: seq<int>) {
    && 0 < |b| <= |bits| && |starts| == 257
    && (forall c :: 0 <= c < 256 ==> starts[c] == Below(b, c))
    && (forall i :: 0 <= i < |b| ==> (bits[i] <==> exists c :: 0 <= c < 256 && starts[c] == i))
  }

  lemma HeaderOfBucket(b: seq<byte>, bits: seq<bool>, starts: seq<int>, d: byte, i: nat)
    requires HeadersAtStarts(b, bits, starts) && i < |b| && InBucket(b, d, i)
    ensures bits[i] <==> Below(b, d) == i
  {
    hide Below, InBucket;
    assert starts[d] == Below(b, d);
    if bits[i] {
      var c :| 0 <= c < 256 && starts[c] == i;
      StartIsUnique(b, c, d, i);
    }
  }

  lemma HeaderAt(b: seq<byte>, p: seq<int>, bits: seq<bool>, starts: seq<int>, i: nat)
    requires ValidOrder(b, p) && FirstColumn(b, p) && HeadersAtStarts(b, bits, starts) && i < |b|
    ensures bits[i] <==> Below(b, b[p[i]]) == i
  {
    hide Below, InBucket, HeadersAtStarts;
    HeaderOfBucket(b, bits, starts, b[p[i]], i);
  }

  lemma InitialState(b: seq<byte>, p: seq<int>, bits: seq<bool>, starts: seq<int>)
    requires ValidOrder(b, p) && FirstColumn(b, p) && HeadersAtStarts(b, bits, starts)
    ensures DepthState(b, p, 1, bits)
  {
    FirstColumnSorted(b, p);
    assert starts[0] == 0;
    forall i | 0 < i < |b|
      ensures bits[i] <==> Prefix(b, p[i - 1], 1) != Prefix(b, p[i], 1)
    {
      HeaderAt(b, p, bits, starts, i);
      BucketStarts(b, p, i);
      OneCharacterDiffers(b, p[i - 1], p[i]);
    }
  }

  /** Opening phase: everything fallbackSort ever reads from the block. */
  method BucketSort(block: seq<byte>) returns (fmap: array<int>, bhtab: array<bool>, ftabCopy: array<int>)
    requires 0 < |block|
    ensures fresh(fmap) && fresh(bhtab) && fresh(ftabCopy) && fmap != ftabCopy && fmap.Length == |block|
    ensures CountsLeft(block, ftabCopy[..], 0)
    ensures TableOk(bhtab[..], |block|) && DepthState(block, fmap[..], 1, bhtab[..])
  {
    var ftab;
    ftab, ftabCopy := CountCharacters(block);
    fmap := new int[|block|];
    PlaceCharacters(block, ftab, fmap);
    BelowAll(block);
    forall c | 0 <= c < 256
      ensures 0 <= ftab[c] <= |block|
    {
      BelowMonotone(block, c, 256);
    }
    bhtab := InitHeaders(ftab, |block|);
    InitialState(block, fmap[..], bhtab[..], ftab[..]);
  }

  lemma StillGrouped(b: seq<byte>, p: seq<int>, h: nat, bits: seq<bool>)
    requires DepthState(b, p, h, bits)
    ensures ValidOrder(b, p) && FirstColumn(b, p)
  {
  }


  /** The log(N) loop; the block itself is only mentioned in the specification. */
  method RefineAll(fmap: array<int>, bhtab: array<bool>, ghost b: seq<byte>)
    requires 0 < |b| == fmap.Length <= 900000 && TableOk(bhtab[..], |b|) && DepthState(b, fmap[..], 1, bhtab[..])
    modifies fmap, bhtab
    ensures SortsRotations(b, fmap[..]) && FirstColumn(b, fmap[..])
  {
    hide DepthState, SortsRotations, TableOk;
    var eclass := new int[fmap.Length];
    var h := 1;
    var more := true;
    while more
      invariant fresh(eclass) && eclass.Length == fmap.Length && h > 0
      invariant TableOk(bhtab[..], |b|) && DepthState(b, fmap[..], h, bhtab[..])
      invariant more ==> h <= |b|
      invariant !more ==> SortsRotations(b, fmap[..])
      decreases more, 2 * |b| - h
    {
      var nNotDone := Double(fmap, eclass, bhtab, h, b);
      h := 2 * h;
      more := !(h > fmap.Length || nNotDone == 0);
      if h > fmap.Length {
        DeepEnough(b, fmap[..], h, bhtab[..]);
      } else if nNotDone == 0 {
        AllDistinct(b, fmap[..], h, bhtab[..]);
      }
    }
    StillGrouped(b, fmap[..], h, bhtab[..]);
  }

  /**
   * fallbackSort: for every non-empty block, a listing of its rotations in
   * nondecreasing order, and the block itself rebuilt after the sort destroyed it.
   */
  method FallbackSort(block: seq<byte>) returns (ptr: seq<int>, restored: seq<byte>)
    requires 0 < |block| <= 900000
    ensures SortsRotations(block, ptr)
    ensures restored == block
  {
    var fmap, bhtab, ftabCopy := BucketSort(block);
    RefineAll(fmap, bhtab, block);
    ptr := fmap[..];
    restored := ReconstructBlock(ptr, ftabCopy, block);
  }
}
