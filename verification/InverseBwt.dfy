/** The Burrows-Wheeler transform and the permutation that undoes it. */
module InverseBwt {
  import opened Base
  import opened Rotations
  import opened Radix

  // ---- what the encoder transmits ----

  function Prev(n: nat, i: nat): (j: nat)
    requires i < n
    ensures j < n && Next(n, j) == i
  {
    if i == 0 then n - 1 else i - 1
  }

  /** Row by row, the character before the rotation: what generateMTFValues reads. */
  function LastColumn(b: seq<byte>, p: seq<int>): (l: seq<byte>)
    requires |p| == |b| && forall i :: 0 <= i < |p| ==> 0 <= p[i] < |b|
    ensures |l| == |b|
  {
    seq(|b|, i requires 0 <= i < |b| => b[Prev(|b|, p[i])])
  }

  /** The search for origPtr at the end of BZ2_blockSort: assertion 1003 cannot fail. */
  method FindOrigin(ptr: seq<int>) returns (origPtr: nat)
    requires |ptr| > 0 && IsPermutation(ptr)
    ensures origPtr < |ptr| && ptr[origPtr] == 0
  {
    ghost var k := PermutationOnto(ptr, 0);
    origPtr := 0;
    while ptr[origPtr] != 0
      invariant origPtr <= k
      decreases k - origPtr
    {
      origPtr := origPtr + 1;
    }
  }

  // ---- the last-to-first mapping ----

  /** Where row `i` of the last column `l` lands when the rows are regrouped by their last character. */
  function LastToFirst(l: seq<byte>, i: nat): (k: nat)
    requires i < |l|
    ensures k < |l| && InBucket(l, l[i], k)
  {
    var c: int := l[i];
    assert l == l[..i] + [l[i]] + l[i + 1..];
    assert multiset(l)[c] == multiset(l[..i])[c] + 1 + multiset(l[i + 1..])[c];
    BelowMonotone(l, c + 1, 256);
    BelowAll(l);
    Below(l, c) + multiset(l[..i])[c]
  }

  lemma LastToFirstOrder(l: seq<byte>, i: nat, j: nat)
    requires i < |l| && j < |l|
    ensures LastToFirst(l, i) < LastToFirst(l, j) <==> l[i] < l[j] || (l[i] == l[j] && i < j)
  {
    if l[i] == l[j] {
      if i < j {
        RanksGrow(l, i, j);
      } else if j < i {
        RanksGrow(l, j, i);
      }
    } else {
      var x, y := LastToFirst(l, i), LastToFirst(l, j);
      if x <= y {
        BucketsOrdered(l, l[i], x, l[j], y);
      }
      if y <= x {
        BucketsOrdered(l, l[j], y, l[i], x);
      }
    }
  }

  lemma RanksGrow(l: seq<byte>, i: nat, j: nat)
    requires i < j < |l| && l[i] == l[j]
    ensures multiset(l[..i])[l[i]] < multiset(l[..j])[l[j]]
  {
    assert l[..j] == l[..i] + [l[i]] + l[i + 1..j];
  }

  /** The decoder's vector T after `m` rows were entered: T[LastToFirst(i)] = i. */
  function TVector(l: seq<byte>, m: nat): (t: seq<int>)
    requires m <= |l|
    ensures |t| == |l| && forall k :: 0 <= k < |t| ==> 0 <= t[k] <= |l|
  {
    if m == 0 then seq(|l|, _ => 0) else TVector(l, m - 1)[LastToFirst(l, m - 1) := m - 1]
  }

  lemma {:induction false} TVectorAt(l: seq<byte>, m: nat, i: nat)
    requires i < m <= |l|
    ensures TVector(l, m)[LastToFirst(l, i)] == i
  {
    if i < m - 1 {
      LastToFirstOrder(l, i, m - 1);
      LastToFirstOrder(l, m - 1, i);
      TVectorAt(l, m - 1, i);
    }
  }

  ghost predicate InverseVector(l: seq<byte>, t: seq<int>) {
    && |t| == |l|
    && forall i :: 0 <= i < |l| ==> t[LastToFirst(l, i)] == i
  }

  /** LastToFirst is a bijection, so its inverse vector is a permutation and undoes it both ways. */
  lemma InverseBothWays(l: seq<byte>, t: seq<int>)
    requires InverseVector(l, t)
    ensures IsPermutation(t)
    ensures forall k :: 0 <= k < |l| ==> 0 <= t[k] < |l| && LastToFirst(l, t[k]) == k
  {
    var f := seq(|l|, i requires 0 <= i < |l| => LastToFirst(l, i));
    forall i, j | 0 <= i < j < |f|
      ensures f[i] != f[j]
    {
      LastToFirstOrder(l, i, j);
      LastToFirstOrder(l, j, i);
    }
    assert IsPermutation(f);
    forall k | 0 <= k < |l|
      ensures 0 <= t[k] < |l| && LastToFirst(l, t[k]) == k
    {
      var i := PermutationOnto(f, k);
    }
  }

  // ---- two sorted listings of the same rotations agree row by row ----

  ghost function Rows(b: seq<byte>, p: seq<int>): (r: seq<seq<byte>>)
    requires forall i :: 0 <= i < |p| ==> 0 <= p[i] < |b|
    ensures |r| == |p| && forall i :: 0 <= i < |p| ==> r[i] == Prefix(b, p[i], |b|)
  {
    seq(|p|, i requires 0 <= i < |p| => Prefix(b, p[i], |b|))
  }

  lemma SameEntries<T>(p: seq<T>, q: seq<T>, i: nat)
    requires multiset(p) == multiset(q) && i < |p|
    ensures p[i] in q && |p| == |q|
  {
    assert |multiset(p)| == |p| && |multiset(q)| == |q|;
    assert p[i] in multiset(p);
  }

  lemma {:induction false} SameRows(b: seq<byte>, p: seq<int>, q: seq<int>)
    requires multiset(p) == multiset(q)
    requires forall i :: 0 <= i < |p| ==> 0 <= p[i] < |b|
    requires forall i :: 0 <= i < |q| ==> 0 <= q[i] < |b|
    ensures multiset(Rows(b, p)) == multiset(Rows(b, q))
    decreases |p|
  {
    if p == [] {
      assert |multiset(q)| == |q|;
      assert Rows(b, p) == Rows(b, q);
    } else {
      SameEntries(p, q, 0);
      var j :| 0 <= j < |q| && q[j] == p[0];
      DropSame(p, q, 0, j);
      SameRows(b, Without(p, 0), Without(q, j));
      RowsWithout(b, p, 0);
      RowsWithout(b, q, j);
      DropSame(Rows(b, p), Rows(b, q), 0, j);
    }
  }

  lemma RowsWithout(b: seq<byte>, p: seq<int>, j: nat)
    requires (forall i :: 0 <= i < |p| ==> 0 <= p[i] < |b|) && j < |p|
    ensures forall i :: 0 <= i < |Without(p, j)| ==> 0 <= Without(p, j)[i] < |b|
    ensures Rows(b, Without(p, j)) == Without(Rows(b, p), j)
  {
  }

  ghost predicate SortedRows(r: seq<seq<byte>>) {
    forall i, j :: 0 <= i < j < |r| ==> Lex(r[i], r[j])
  }

  lemma FirstIsLeast(r: seq<seq<byte>>, s: seq<seq<byte>>)
    requires SortedRows(r) && multiset(r) == multiset(s) && r != [] && s != []
    ensures Lex(r[0], s[0])
  {
    SameEntries(s, r, 0);
    var j :| 0 <= j < |r| && r[j] == s[0];
    LexReflexive(r[0]);
  }

  lemma SortedTail(r: seq<seq<byte>>)
    requires SortedRows(r) && r != []
    ensures SortedRows(Without(r, 0)) && Without(r, 0) == r[1..]
  {
  }

  lemma {:induction false} SortedRowsUnique(r: seq<seq<byte>>, s: seq<seq<byte>>)
    requires SortedRows(r) && SortedRows(s) && multiset(r) == multiset(s)
    ensures r == s
  {
    assert |multiset(r)| == |r| && |multiset(s)| == |s|;
    if r != [] {
      FirstIsLeast(r, s);
      FirstIsLeast(s, r);
      LexAntisymmetric(r[0], s[0]);
      SortedTail(r);
      SortedTail(s);
      DropSame(r, s, 0, 0);
      SortedRowsUnique(r[1..], s[1..]);
    }
  }

  lemma PermutationsSameMultiset(p: seq<int>, q: seq<int>)
    requires IsPermutation(p) && IsPermutation(q) && |p| == |q|
    ensures multiset(p) == multiset(q)
  {
    forall v: int
      ensures multiset(p)[v] == multiset(q)[v]
    {
      DistinctMultiplicity(p, v);
      DistinctMultiplicity(q, v);
      if 0 <= v < |p| {
        var i := PermutationOnto(p, v);
        var j := PermutationOnto(q, v);
        assert p[i] in multiset(p) && q[j] in multiset(q);
      } else {
        assert v !in p && v !in q;
      }
    }
  }

  // ---- the inversion theorem ----

  /** The rotation one place before row `i`'s, in the order the vector `t` visits the rows. */
  ghost function Predecessors(n: nat, p: seq<int>, t: seq<int>): (y: seq<int>)
    requires |p| == n && |t| == n && (forall i :: 0 <= i < n ==> 0 <= p[i] < n)
    requires (forall i :: 0 <= i < n ==> 0 <= t[i] < n)
    ensures |y| == n && forall k :: 0 <= k < n ==> y[k] == Prev(n, p[t[k]]) && 0 <= y[k] < n
  {
    seq(n, k requires 0 <= k < n => Prev(n, p[t[k]]))
  }

  lemma PredecessorsPermute(n: nat, p: seq<int>, t: seq<int>)
    requires |p| == n && |t| == n && IsPermutation(p) && IsPermutation(t)
    ensures IsPermutation(Predecessors(n, p, t))
  {
    var y := Predecessors(n, p, t);
    forall i, j | 0 <= i < j < n
      ensures y[i] != y[j]
    {
      assert t[i] != t[j];
      assert p[t[i]] != p[t[j]];
      assert Next(n, y[i]) == p[t[i]] && Next(n, y[j]) == p[t[j]];
    }
  }

  lemma PrecedingLess(b: seq<byte>, x: nat, y: nat)
    requires x < |b| && y < |b| && b[Prev(|b|, x)] < b[Prev(|b|, y)]
    ensures Lex(Prefix(b, Prev(|b|, x), |b|), Prefix(b, Prev(|b|, y), |b|))
  {
    assert Prefix(b, Prev(|b|, x), |b|)[0] == b[Prev(|b|, x)];
    assert Prefix(b, Prev(|b|, y), |b|)[0] == b[Prev(|b|, y)];
  }

  lemma RowShorter(b: seq<byte>, x: nat, y: nat, n: nat)
    requires n == |b| && x < n && y < n && Lex(Prefix(b, x, n), Prefix(b, y, n))
    ensures Lex(Prefix(b, x, n - 1), Prefix(b, y, n - 1))
  {
    OrderAtShorter(b, x, y, n - 1, 1);
  }

  /** A rotation is its first character followed by the rest of the next rotation. */
  lemma RotationHead(b: seq<byte>, x: nat, n: nat)
    requires n == |b| && x < n
    ensures Prefix(b, Prev(n, x), n) == [b[Prev(n, x)]] + Prefix(b, x, n - 1)
  {
  }

  lemma LexCons(v: seq<int>, w: seq<int>, s: seq<int>, u: seq<int>, c: int)
    requires v == [c] + s && w == [c] + u && Lex(s, u)
    ensures Lex(v, w)
  {
    assert v[1..] == s && w[1..] == u;
  }

  lemma PrecedingTie(b: seq<byte>, x: nat, y: nat, n: nat)
    requires n == |b| && x < n && y < n && b[Prev(n, x)] == b[Prev(n, y)]
    requires Lex(Prefix(b, x, n - 1), Prefix(b, y, n - 1))
    ensures Lex(Prefix(b, Prev(n, x), n), Prefix(b, Prev(n, y), n))
  {
    RotationHead(b, x, n);
    RotationHead(b, y, n);
    LexCons(Prefix(b, Prev(n, x), n), Prefix(b, Prev(n, y), n), Prefix(b, x, n - 1), Prefix(b, y, n - 1),
        b[Prev(n, x)]);
  }

  /** Regrouping sorted rows by the character before them, stably, sorts the preceding rotations. */
  lemma PredecessorsSorted(b: seq<byte>, p: seq<int>, i: nat, j: nat, n: nat)
    requires SortsRotations(b, p) && n == |b| && i < n && j < n
    requires LastToFirst(LastColumn(b, p), i) < LastToFirst(LastColumn(b, p), j)
    ensures Lex(Prefix(b, Prev(n, p[i]), n), Prefix(b, Prev(n, p[j]), n))
  {
    LastToFirstOrder(LastColumn(b, p), i, j);
    if LastColumn(b, p)[i] == LastColumn(b, p)[j] {
      RowShorter(b, p[i], p[j], n);
      PrecedingTie(b, p[i], p[j], n);
    } else {
      PrecedingLess(b, p[i], p[j]);
    }
  }

  /** Row `k` spells the rotation one place before row t[k]'s, ties or not. */
  lemma RowBefore(b: seq<byte>, p: seq<int>, t: seq<int>, k: nat)
    requires SortsRotations(b, p) && InverseVector(LastColumn(b, p), t) && k < |b|
    ensures 0 <= t[k] < |b| && Prefix(b, p[k], |b|) == Prefix(b, Prev(|b|, p[t[k]]), |b|)
  {
    InverseBothWays(LastColumn(b, p), t);
    PredecessorsPermute(|b|, p, t);
    var y := Predecessors(|b|, p, t);
    PermutationsSameMultiset(p, y);
    SameRows(b, p, y);
    forall i, j | 0 <= i < j < |b|
      ensures Lex(Rows(b, y)[i], Rows(b, y)[j])
    {
      PredecessorsSorted(b, p, t[i], t[j], |b|);
    }
    SortedRowsUnique(Rows(b, p), Rows(b, y));
    assert Rows(b, p)[k] == Rows(b, y)[k];
  }

  lemma RotationTail(b: seq<byte>, x: nat, n: nat)
    requires n == |b| && x < n
    ensures Prefix(b, Next(n, x), n) == Prefix(b, Next(n, x), n - 1) + [b[x]]
  {
    PrefixAdd(b, Next(n, x), n - 1, 1);
    AdvanceClosed(n, Next(n, x), n - 1);
    PrefixOne(b, x);
  }

  lemma MoveHeadToTail(a: byte, s: seq<byte>, c: byte, u: seq<byte>)
    requires [a] + s == [c] + u
    ensures s + [a] == u + [c]
  {
    assert ([a] + s)[0] == a && ([c] + u)[0] == c;
    assert ([a] + s)[1..] == s && ([c] + u)[1..] == u;
  }

  /** Equal rotations stay equal one place further on. */
  lemma RotateBoth(b: seq<byte>, x: nat, y: nat, n: nat)
    requires n == |b| && x < n && y < n && Prefix(b, x, n) == Prefix(b, y, n)
    ensures Prefix(b, Next(n, x), n) == Prefix(b, Next(n, y), n)
  {
    RotationTail(b, x, n);
    RotationTail(b, y, n);
    MoveHeadToTail(b[x], Prefix(b, Next(n, x), n - 1), b[y], Prefix(b, Next(n, y), n - 1));
  }

  predicate SelfMap(t: seq<int>) {
    forall i :: 0 <= i < |t| ==> 0 <= t[i] < |t|
  }

  /** The position of the decoder after `k` steps along `t` from `o`. */
  function Walk(t: seq<int>, o: nat, k: nat): (q: nat)
    requires o < |t| && SelfMap(t)
    ensures q < |t|
  {
    if k == 0 then o else t[Walk(t, o, k - 1)]
  }

  lemma WalkStep(b: seq<byte>, p: seq<int>, t: seq<int>, q: nat, z: nat, n: nat)
    requires SortsRotations(b, p) && InverseVector(LastColumn(b, p), t) && n == |b| && q < n && z < n
    requires Prefix(b, p[q], n) == Prefix(b, z, n)
    ensures 0 <= t[q] < n && Prefix(b, p[t[q]], n) == Prefix(b, Next(n, z), n)
  {
    RowBefore(b, p, t, q);
    RotateBoth(b, Prev(n, p[t[q]]), z, n);
  }

  lemma {:induction false} WalkSpells(b: seq<byte>, p: seq<int>, t: seq<int>, o: nat, k: nat, n: nat)
    requires SortsRotations(b, p) && InverseVector(LastColumn(b, p), t) && IsPermutation(t) && n == |b| && o < n
    requires p[o] == 0
    ensures Prefix(b, p[Walk(t, o, k)], n) == Prefix(b, Advance(n, 0, k), n)
  {
    hide SortedTo, LastColumn, Prefix, LastToFirst;
    if k > 0 {
      WalkSpells(b, p, t, o, k - 1, n);
      AdvanceAdd(n, 0, k - 1, 1);
      assert Advance(n, 0, k) == Next(n, Advance(n, 0, k - 1));
      WalkStep(b, p, t, Walk(t, o, k - 1), Advance(n, 0, k - 1), n);
    }
  }

  /** The k-th character the decoder produces. */
  function OutChar(l: seq<byte>, t: seq<int>, o: nat, k: nat): (c: byte)
    requires o < |t| == |l| && SelfMap(t)
  {
    l[Walk(t, o, k + 1)]
  }

  /**
   * BWT inversion: for any order that sorts the rotations, walking T from the
   * row of rotation 0 spells the block, including periodic blocks.
   */
  lemma InversionSpellsBlock(b: seq<byte>, p: seq<int>, t: seq<int>, o: nat, k: nat)
    requires SortsRotations(b, p) && InverseVector(LastColumn(b, p), t) && IsPermutation(t) && o < |b| && p[o] == 0
    requires k < |b|
    ensures OutChar(LastColumn(b, p), t, o, k) == b[k]
  {
    WalkSpells(b, p, t, o, k + 1, |b|);
    AdvanceClosed(|b|, 0, k + 1);
    SameLastCharacter(b, p[Walk(t, o, k + 1)], Next(|b|, k), |b|);
  }

  lemma SameLastCharacter(b: seq<byte>, x: nat, y: nat, n: nat)
    requires n == |b| && x < n && y < n && Prefix(b, x, n) == Prefix(b, y, n)
    ensures b[Prev(n, x)] == b[Prev(n, y)]
  {
    LastCharacter(b, x, n);
    LastCharacter(b, y, n);
  }

  lemma LastCharacter(b: seq<byte>, x: nat, n: nat)
    requires n == |b| && x < n
    ensures Prefix(b, x, n)[n - 1] == b[Prev(n, x)]
  {
    RotationTail(b, Prev(n, x), n);
  }
}
