/** The one-character bucket sort that opens fallbackSort, and the block reconstruction that closes it. */
module Radix {
  import opened Base
  import opened Rotations

  /** How many characters of `b` are smaller than `c`: where bucket `c` starts. */
  function Below(b: seq<byte>, c: nat): nat {
    if c == 0 then 0 else Below(b, c - 1) + multiset(b)[c - 1]
  }

  lemma {:induction false} BelowMonotone(b: seq<byte>, c: nat, d: nat)
    requires c <= d
    ensures Below(b, c) <= Below(b, d)
  {
    if c < d {
      BelowMonotone(b, c, d - 1);
    }
  }

  lemma {:induction false} BelowOfConcat(a: seq<byte>, x: byte, c: nat)
    ensures Below(a + [x], c) == Below(a, c) + if x < c then 1 else 0
  {
    if c > 0 {
      BelowOfConcat(a, x, c - 1);
      assert multiset(a + [x]) == multiset(a) + multiset{x};
    }
  }

  lemma {:induction false} BelowAll(b: seq<byte>)
    ensures Below(b, 256) == |b|
  {
    if b == [] {
      BelowEmpty(256);
    } else {
      var k := |b| - 1;
      BelowAll(b[..k]);
      BelowOfConcat(b[..k], b[k], 256);
      assert b[..k] + [b[k]] == b;
    }
  }

  lemma {:induction false} BelowEmpty(c: nat)
    ensures Below([], c) == 0
  {
    if c > 0 {
      BelowEmpty(c - 1);
      assert multiset([])[c - 1] == 0;
    }
  }

  lemma NothingBelow(b: seq<byte>)
    ensures Below(b, 0) == 0
  {
  }

  lemma BelowStep(b: seq<byte>, n: nat)
    ensures Below(b, n + 1) == Below(b, n) + multiset(b)[n]
  {
  }

  /** Position `k` of the sorted order belongs to bucket `c`. */
  ghost predicate InBucket(b: seq<byte>, c: int, k: int) {
    0 <= c < 256 && Below(b, c) <= k < Below(b, c + 1)
  }

  /** `p` is grouped by first character. */
  ghost predicate FirstColumn(b: seq<byte>, p: seq<int>)
    requires ValidOrder(b, p)
  {
    forall k :: 0 <= k < |p| ==> InBucket(b, b[p[k]], k)
  }

  lemma BucketsOrdered(b: seq<byte>, c: int, k: int, d: int, l: int)
    requires InBucket(b, c, k) && InBucket(b, d, l) && k <= l
    ensures c <= d
  {
    if d < c {
      BelowMonotone(b, d + 1, c);
    }
  }

  lemma {:induction false} FindBucket(b: seq<byte>, k: nat, c: nat) returns (d: nat)
    requires k < Below(b, c) && c <= 256
    ensures d < c && InBucket(b, d, k)
  {
    if Below(b, c - 1) <= k {
      d := c - 1;
    } else {
      d := FindBucket(b, k, c - 1);
    }
  }

  lemma FirstColumnSorted(b: seq<byte>, p: seq<int>)
    requires ValidOrder(b, p) && FirstColumn(b, p)
    ensures SortedTo(b, p, 1)
  {
    forall i, j | 0 <= i < j < |p|
      ensures Lex(Prefix(b, p[i], 1), Prefix(b, p[j], 1))
    {
      BucketsOrdered(b, b[p[i]], i, b[p[j]], j);
      PrefixOne(b, p[i]);
      PrefixOne(b, p[j]);
      assert Lex([b[p[i]]][1..], [b[p[j]]][1..]);
    }
  }

  /** First two loops of fallbackSort: count the characters, then accumulate. */
  method CountCharacters(block: seq<byte>) returns (ftab: array<int>, ftabCopy: array<int>)
    ensures fresh(ftab) && fresh(ftabCopy) && ftab != ftabCopy && ftab.Length == 257 && ftabCopy.Length == 256
    ensures forall c :: 0 <= c < 256 ==> ftab[c] == Below(block, c + 1)
    ensures CountsLeft(block, ftabCopy[..], 0)
  {
    ftab := new int[257](_ => 0);
    var i := 0;
    while i < |block|
      invariant 0 <= i <= |block|
      invariant forall c :: 0 <= c < 256 ==> ftab[c] == multiset(block[..i])[c]
    {
      assert block[..i + 1] == block[..i] + [block[i]];
      ftab[block[i]] := ftab[block[i]] + 1;
      i := i + 1;
    }
    assert block[..i] == block;
    ftabCopy := new int[256];
    i := 0;
    while i < 256
      invariant 0 <= i <= 256
      invariant forall c :: 0 <= c < 256 ==> ftab[c] == multiset(block)[c]
      invariant forall c :: 0 <= c < i ==> ftabCopy[c] == ftab[c]
    {
      ftabCopy[i] := ftab[i];
      i := i + 1;
    }
    i := 1;
    while i < 257
      invariant 1 <= i <= 257
      invariant forall c :: 0 <= c < i && c < 256 ==> ftab[c] == Below(block, c + 1)
      invariant forall c :: i <= c < 256 ==> ftab[c] == multiset(block)[c]
      invariant forall c :: 0 <= c < 256 ==> ftabCopy[c] == multiset(block)[c]
    {
      ftab[i] := ftab[i] + ftab[i - 1];
      i := i + 1;
    }
    assert forall c :: 0 <= c < 256 ==> ftabCopy[..][c] == multiset(block)[c] == Remaining(block, c, 0);
  }

  /** After `i` characters were placed, slots ftab[c] .. Below(c+1)-1 of bucket `c` hold positions, latest first. */
  ghost predicate Placed(b: seq<byte>, i: int, f: seq<int>, p: seq<int>) {
    && |f| == 257 && |p| == |b| && 0 <= i <= |b|
    && (forall c :: 0 <= c < 256 ==> f[c] == Below(b, c + 1) - multiset(b[..i])[c])
    && (forall c, k :: 0 <= c < 256 && f[c] <= k < Below(b, c + 1) && 0 <= k < |p| ==> 0 <= p[k] < i && b[p[k]] == c)
    && (forall c, k, l :: 0 <= c < 256 && f[c] <= k < l < Below(b, c + 1) && 0 <= k && l < |p| ==> p[k] > p[l])
  }

  lemma SlotFree(b: seq<byte>, i: nat, f: seq<int>, p: seq<int>)
    requires i < |b| && Placed(b, i, f, p)
    ensures var c: int := b[i]; Below(b, c) < f[c] <= Below(b, c + 1) <= |b|
  {
    var c: int := b[i];
    MoreToCome(b, i);
    BelowStep(b, c);
    hide Below;
    BelowMonotone(b, c + 1, 256);
    BelowAll(b);
  }

  lemma MoreToCome(b: seq<byte>, i: nat)
    requires i < |b|
    ensures multiset(b[..i])[b[i]] < multiset(b)[b[i]]
  {
    var rest := b[i + 1..];
    assert b == b[..i] + [b[i]] + rest;
    assert multiset(b)[b[i]] == multiset(b[..i])[b[i]] + 1 + multiset(rest)[b[i]];
  }

  lemma OneMore(b: seq<byte>, i: nat, d: int)
    requires i < |b|
    ensures multiset(b[..i + 1])[d] == multiset(b[..i])[d] + if b[i] == d then 1 else 0
  {
    assert b[..i + 1] == b[..i] + [b[i]];
  }

  lemma PlaceOne(b: seq<byte>, i: nat, f: seq<int>, p: seq<int>)
    requires i < |b| && Placed(b, i, f, p)
    ensures var c: int := b[i]; 0 < f[c] <= |p| && Placed(b, i + 1, f[c := f[c] - 1], p[f[c] - 1 := i])
  {
    var c: int := b[i];
    SlotFree(b, i, f, p);
    var f', p' := f[c := f[c] - 1], p[f[c] - 1 := i];
    hide Below;
    forall d | 0 <= d < 256
      ensures f'[d] == Below(b, d + 1) - multiset(b[..i + 1])[d]
    {
      OneMore(b, i, d);
    }
    forall d, k | 0 <= d < 256 && f'[d] <= k < Below(b, d + 1) && 0 <= k < |p'|
      ensures 0 <= p'[k] < i + 1 && b[p'[k]] == d
      ensures d == c || k != f[c] - 1
    {
      if k == f[c] - 1 && d != c {
        DisjointBuckets(b, i, f, c, d, k);
      }
    }
  }

  lemma DisjointBuckets(b: seq<byte>, i: nat, f: seq<int>, c: int, d: int, k: int)
    requires |f| == 257 && i <= |b| && 0 <= c < 256 && 0 <= d < 256 && c != d
    requires forall x :: 0 <= x < 256 ==> f[x] == Below(b, x + 1) - multiset(b[..i])[x]
    requires Below(b, c) <= k < Below(b, c + 1)
    ensures !(f[d] <= k < Below(b, d + 1))
  {
    assert b == b[..i] + b[i..];
    assert multiset(b)[d] == multiset(b[..i])[d] + multiset(b[i..])[d];
    if d < c {
      BelowMonotone(b, d + 1, c);
    } else {
      BelowMonotone(b, c + 1, d);
    }
  }

  lemma PlacedAt(b: seq<byte>, f: seq<int>, p: seq<int>, k: nat)
    requires Placed(b, |b|, f, p) && k < |p|
    ensures 0 <= p[k] < |b| && InBucket(b, b[p[k]], k) && f[b[p[k]]] == Below(b, b[p[k]])
  {
    BelowAll(b);
    var d := FindBucket(b, k, 256);
    assert b[..|b|] == b;
    assert f[d] <= k < Below(b, d + 1);
  }

  lemma AllPlaced(b: seq<byte>, f: seq<int>, p: seq<int>)
    requires Placed(b, |b|, f, p)
    ensures ValidOrder(b, p) && FirstColumn(b, p)
    ensures forall c :: 0 <= c < 256 ==> f[c] == Below(b, c)
  {
    hide Placed, Below, InBucket;
    AllCounted(b, f, p);
    forall k | 0 <= k < |p|
      ensures 0 <= p[k] < |b| && InBucket(b, b[p[k]], k)
    {
      PlacedAt(b, f, p, k);
    }
    forall k, l | 0 <= k < l < |p|
      ensures p[k] != p[l]
    {
      PlacedApart(b, f, p, k, l);
    }
  }

  lemma AllCounted(b: seq<byte>, f: seq<int>, p: seq<int>)
    requires Placed(b, |b|, f, p)
    ensures |p| == |b| && |f| == 257 && forall c :: 0 <= c < 256 ==> f[c] == Below(b, c)
  {
    assert b[..|b|] == b;
  }

  lemma PlacedApart(b: seq<byte>, f: seq<int>, p: seq<int>, k: nat, l: nat)
    requires Placed(b, |b|, f, p) && k < l < |p|
    ensures p[k] != p[l]
  {
    hide Below;
    PlacedAt(b, f, p, k);
    PlacedAt(b, f, p, l);
  }

  method PlaceNext(block: seq<byte>, i: nat, ftab: array<int>, fmap: array<int>)
    requires i < |block| && ftab != fmap && Placed(block, i, ftab[..], fmap[..])
    modifies ftab, fmap
    ensures Placed(block, i + 1, ftab[..], fmap[..])
  {
    ghost var f, p := ftab[..], fmap[..];
    PlaceOne(block, i, f, p);
    var j: int := block[i];
    var k := ftab[j] - 1;
    ftab[j] := k;
    fmap[k] := i;
    assert ftab[..] == f[j := f[j] - 1] && fmap[..] == p[k := i];
  }

  lemma NonePlaced(b: seq<byte>, f: seq<int>, p: seq<int>)
    requires |f| == 257 && |p| == |b|
    requires forall c :: 0 <= c < 256 ==> f[c] == Below(b, c + 1)
    ensures Placed(b, 0, f, p)
  {
    assert b[..0] == [];
  }

  /** Third loop of fallbackSort: drop every position into its bucket, from the top down. */
  method PlaceCharacters(block: seq<byte>, ftab: array<int>, fmap: array<int>)
    requires fmap.Length == |block| && ftab.Length == 257 && ftab != fmap
    requires forall c :: 0 <= c < 256 ==> ftab[c] == Below(block, c + 1)
    modifies ftab, fmap
    ensures ValidOrder(block, fmap[..]) && FirstColumn(block, fmap[..])
    ensures forall c :: 0 <= c < 256 ==> ftab[c] == Below(block, c)
  {
    NonePlaced(block, ftab[..], fmap[..]);
    var i := 0;
    while i < |block|
      invariant 0 <= i <= |block|
      invariant Placed(block, i, ftab[..], fmap[..])
    {
      PlaceNext(block, i, ftab, fmap);
      i := i + 1;
    }
    ghost var f := ftab[..];
    AllPlaced(block, f, fmap[..]);
    assert forall c :: 0 <= c < 256 ==> ftab[c] == f[c];
  }

  /** What is left of bucket `c` once the first `i` positions are handed out. */
  function Remaining(b: seq<byte>, c: nat, i: nat): int {
    if i <= Below(b, c) then multiset(b)[c] else if Below(b, c + 1) <= i then 0 else Below(b, c + 1) - i
  }

  ghost predicate CountsLeft(b: seq<byte>, f: seq<int>, i: nat) {
    |f| == 256 && forall c :: 0 <= c < 256 ==> f[c] == Remaining(b, c, i)
  }

  /** One position of the rebuilt block: the next character that still has occurrences left. */
  method NextCharacter(fmap: seq<int>, ftabCopy: array<int>, j: nat, i: nat, ghost b: seq<byte>) returns (j': nat)
    requires ValidOrder(b, fmap) && FirstColumn(b, fmap) && i < |fmap| && j <= b[fmap[i]]
    requires CountsLeft(b, ftabCopy[..], i)
    modifies ftabCopy
    ensures CountsLeft(b, ftabCopy[..], i + 1)
    ensures j' == b[fmap[i]] && (i + 1 < |fmap| ==> j' <= b[fmap[i + 1]])
  {
    ghost var f := ftabCopy[..];
    ghost var target: int := b[fmap[i]];
    assert f[target] == Remaining(b, target, i) > 0;
    j' := j;
    while ftabCopy[j'] == 0
      invariant 0 <= j' <= target && ftabCopy[..] == f
      decreases 256 - j'
    {
      j' := j' + 1;
    }
    StopsAtBucket(b, j', target, i);
    ftabCopy[j'] := ftabCopy[j'] - 1;
    assert ftabCopy[..] == f[j' := f[j'] - 1];
    NextRemaining(b, j', i);
    if i + 1 < |fmap| {
      BucketsOrdered(b, b[fmap[i]], i, b[fmap[i + 1]], i + 1);
    }
  }

  /** Last loop of fallbackSort: rebuild the block, which the sort overwrote, from the order and the counts alone. */
  method ReconstructBlock(fmap: seq<int>, ftabCopy: array<int>, ghost b: seq<byte>) returns (block: seq<byte>)
    requires ValidOrder(b, fmap) && FirstColumn(b, fmap)
    requires CountsLeft(b, ftabCopy[..], 0)
    modifies ftabCopy
    ensures block == b
  {
    var eclass8 := new byte[|fmap|](_ => 0);
    var j := 0;
    var i := 0;
    while i < |fmap|
      invariant 0 <= i <= |fmap| && 0 <= j < 256
      invariant CountsLeft(b, ftabCopy[..], i)
      invariant i < |fmap| ==> j <= b[fmap[i]]
      invariant forall k :: 0 <= k < i ==> eclass8[fmap[k]] == b[fmap[k]]
    {
      j := NextCharacter(fmap, ftabCopy, j, i, b);
      eclass8[fmap[i]] := j;
      i := i + 1;
    }
    forall v | 0 <= v < |b|
      ensures eclass8[v] == b[v]
    {
      var k := PermutationOnto(fmap, v);
    }
    block := eclass8[..];
  }

  lemma StopsAtBucket(b: seq<byte>, j: nat, c: nat, i: nat)
    requires j <= c && InBucket(b, c, i) && Remaining(b, j, i) != 0
    ensures j == c
  {
    if j < c {
      BelowMonotone(b, j + 1, c);
    }
  }

  lemma NextRemaining(b: seq<byte>, j: nat, i: nat)
    requires InBucket(b, j, i)
    ensures forall c :: 0 <= c < 256 ==> Remaining(b, c, i + 1) == Remaining(b, c, i) - if c == j then 1 else 0
  {
    forall c | 0 <= c < 256
      ensures Remaining(b, c, i + 1) == Remaining(b, c, i) - if c == j then 1 else 0
    {
      if c < j {
        BelowMonotone(b, c + 1, j);
      } else if c > j {
        BelowMonotone(b, j + 1, c);
      }
    }
  }

  lemma StartIsUnique(b: seq<byte>, c: nat, d: nat, i: nat)
    requires InBucket(b, d, i) && Below(b, c) == i
    ensures Below(b, d) == i
  {
    if d < c {
      BelowMonotone(b, d + 1, c);
    } else {
      BelowMonotone(b, c, d);
    }
  }

  lemma BucketChanges(b: seq<byte>, c: nat, d: nat, i: nat)
    requires i > 0 && InBucket(b, c, i - 1) && InBucket(b, d, i)
    ensures Below(b, d) == i <==> c != d
  {
    BucketsOrdered(b, c, i - 1, d, i);
    if c < d {
      BelowMonotone(b, c + 1, d);
    }
  }

  lemma PrefixOne(b: seq<byte>, x: nat)
    requires x < |b|
    ensures Prefix(b, x, 1) == [b[x]]
  {
    assert Prefix(b, x, 1) == [b[x]] + Prefix(b, Next(|b|, x), 0);
  }

  lemma OneCharacterDiffers(b: seq<byte>, x: nat, y: nat)
    requires x < |b| && y < |b|
    ensures Prefix(b, x, 1) != Prefix(b, y, 1) <==> b[x] != b[y]
  {
    PrefixOne(b, x);
    PrefixOne(b, y);
    assert [b[x]][0] == b[x] && [b[y]][0] == b[y];
  }

  /** A bucket starts at `i` exactly where the first character changes. */
  lemma BucketStarts(b: seq<byte>, p: seq<int>, i: nat)
    requires ValidOrder(b, p) && FirstColumn(b, p) && 0 < i < |b|
    ensures Below(b, b[p[i]]) == i <==> b[p[i - 1]] != b[p[i]]
  {
    BucketChanges(b, b[p[i - 1]], b[p[i]], i);
  }
}
