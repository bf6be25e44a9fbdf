/** Shared vocabulary: bytes, powers of two and permutations. */
module Base {

  type byte = x: int | 0 <= x < 256

  datatype Option<+T> = None | Some(value: T)

  function Pow2(n: nat): (r: nat)
    ensures r >= 1
  {
    if n == 0 then 1 else 2 * Pow2(n - 1)
  }

  lemma {:induction false} Pow2Add(a: nat, b: nat)
    ensures Pow2(a + b) == Pow2(a) * Pow2(b)
  {
    if a > 0 {
      Pow2Add(a - 1, b);
      assert Pow2(a + b) == 2 * (Pow2(a - 1) * Pow2(b));
    }
  }

  lemma Pow2Values()
    ensures Pow2(8) == 256 && Pow2(16) == 65536 && Pow2(17) == 131072 && Pow2(20) == 1048576 && Pow2(24) == 16777216
    ensures Pow2(21) == 2097152 && Pow2(32) == 4294967296
  {
    assert Pow2(4) == 16 && Pow2(5) == 32;
    Pow2Add(4, 4);
    Pow2Add(8, 8);
    Pow2Add(16, 4);
    Pow2Add(16, 5);
    Pow2Add(16, 8);
    Pow2Add(16, 16);
  }

  lemma {:induction false} Pow2Monotone(a: nat, b: nat)
    requires a <= b
    ensures Pow2(a) <= Pow2(b)
  {
    if a < b {
      Pow2Monotone(a, b - 1);
    }
  }

  /** `p` lists every index 0..|p|-1 exactly once. */
  ghost predicate IsPermutation(p: seq<int>) {
    && (forall i :: 0 <= i < |p| ==> 0 <= p[i] < |p|)
    && (forall i, j :: 0 <= i < j < |p| ==> p[i] != p[j])
  }

  /** `n` times the same. */
  function Repeat<T>(c: T, n: nat): (s: seq<T>)
    ensures |s| == n && forall i :: 0 <= i < n ==> s[i] == c
  {
    seq(n, _ => c)
  }

  lemma Associate<T>(a: seq<T>, b: seq<T>, c: seq<T>)
    ensures a + b + c == a + (b + c)
  {
  }

  function Range(n: nat): (s: seq<int>)
    ensures |s| == n && forall i :: 0 <= i < n ==> s[i] == i
  {
    seq(n, i => i)
  }

  ghost function Elements(p: seq<int>): set<int> {
    set x | x in p
  }

  lemma {:induction false} DistinctCardinality(p: seq<int>)
    requires forall i, j :: 0 <= i < j < |p| ==> p[i] != p[j]
    ensures |Elements(p)| == |p|
  {
    if p != [] {
      var last := p[|p| - 1];
      DistinctCardinality(p[..|p| - 1]);
      assert Elements(p) == Elements(p[..|p| - 1]) + {last};
    }
  }

  lemma SubsetOfSameSize<T>(a: set<T>, b: set<T>)
    requires a <= b && |a| == |b|
    ensures a == b
  {
    assert |b - a| == |b| - |a|;
  }

  /** Pigeonhole: an injective self-map of a finite segment is onto. */
  lemma PermutationOnto(p: seq<int>, v: int) returns (i: nat)
    requires IsPermutation(p) && 0 <= v < |p|
    ensures i < |p| && p[i] == v
  {
    DistinctCardinality(p);
    DistinctCardinality(Range(|p|));
    assert Range(|p|)[v] == v;
    forall x | x in Elements(p)
      ensures x in Elements(Range(|p|))
    {
      assert Range(|p|)[x] == x;
    }
    SubsetOfSameSize(Elements(p), Elements(Range(|p|)));
    assert v in Elements(p);
    i :| 0 <= i < |p| && p[i] == v;
  }

  lemma DistinctBounded(p: seq<int>, n: nat)
    requires forall i :: 0 <= i < |p| ==> 0 <= p[i] < n
    requires forall i, j :: 0 <= i < j < |p| ==> p[i] != p[j]
    ensures |p| <= n
  {
    DistinctCardinality(p);
    DistinctCardinality(Range(n));
    forall x | x in Elements(p)
      ensures x in Elements(Range(n))
    {
      assert Range(n)[x] == x;
    }
    SubsetSize(Elements(p), Elements(Range(n)));
  }

  lemma SubsetSize<T>(a: set<T>, b: set<T>)
    requires a <= b
    ensures |a| <= |b|
  {
    assert |b - a| == |b| - |a|;
  }

  lemma SwapKeepsMultiset<T>(s: seq<T>, i: nat, j: nat)
    requires i < |s| && j < |s|
    ensures multiset(s[i := s[j]][j := s[i]]) == multiset(s)
  {
  }

  function Without<T>(s: seq<T>, i: nat): (r: seq<T>)
    requires i < |s|
    ensures |r| == |s| - 1
  {
    s[..i] + s[i + 1..]
  }

  lemma WithoutMultiset<T>(s: seq<T>, i: nat)
    requires i < |s|
    ensures multiset(s) == multiset(Without(s, i)) + multiset{s[i]}
  {
    assert s == s[..i] + [s[i]] + s[i + 1..];
  }

  /** Dropping equal entries keeps two listings rearrangements of each other, and so does adding them. */
  lemma DropSame<T>(p: seq<T>, q: seq<T>, i: nat, j: nat)
    requires i < |p| && j < |q| && p[i] == q[j]
    ensures multiset(p) == multiset(q) <==> multiset(Without(p, i)) == multiset(Without(q, j))
  {
    WithoutMultiset(p, i);
    WithoutMultiset(q, j);
    assert multiset(Without(p, i)) == multiset(p) - multiset{p[i]};
    assert multiset(Without(q, j)) == multiset(q) - multiset{q[j]};
  }

  lemma MultisetOfRange<T>(a: seq<T>, b: seq<T>, lo: nat, hi: nat)
    requires |a| == |b| && lo <= hi <= |a|
    requires a[..lo] == b[..lo] && a[hi..] == b[hi..]
    requires multiset(a) == multiset(b)
    ensures multiset(a[lo..hi]) == multiset(b[lo..hi])
  {
    assert a == a[..lo] + a[lo..hi] + a[hi..];
    assert b == b[..lo] + b[lo..hi] + b[hi..];
    assert multiset(a) == multiset(a[..lo]) + multiset(a[lo..hi]) + multiset(a[hi..]);
    assert multiset(b) == multiset(b[..lo]) + multiset(b[lo..hi]) + multiset(b[hi..]);
    assert multiset(a[lo..hi]) == multiset(a) - multiset(a[..lo]) - multiset(a[hi..]);
    assert multiset(b[lo..hi]) == multiset(b) - multiset(b[..lo]) - multiset(b[hi..]);
  }

  /** A rearrangement of a permutation is a permutation. */
  lemma PermutationFromMultiset(p: seq<int>, q: seq<int>)
    requires IsPermutation(p) && multiset(p) == multiset(q)
    ensures IsPermutation(q)
  {
    assert |p| == |multiset(p)| == |multiset(q)| == |q|;
    forall i | 0 <= i < |q|
      ensures 0 <= q[i] < |q|
    {
      assert q[i] in multiset(q);
      assert q[i] in p;
    }
    forall i, j | 0 <= i < j < |q|
      ensures q[i] != q[j]
    {
      if q[i] == q[j] {
        assert q == q[..i] + [q[i]] + q[i + 1..j] + [q[j]] + q[j + 1..];
        assert multiset(q)[q[i]] >= 2;
        DistinctMultiplicity(p, q[i]);
      }
    }
  }

  lemma {:induction false} DistinctMultiplicity(p: seq<int>, v: int)
    requires forall i, j :: 0 <= i < j < |p| ==> p[i] != p[j]
    ensures multiset(p)[v] <= 1
  {
    if p != [] {
      var k := |p| - 1;
      DistinctMultiplicity(p[..k], v);
      assert p == p[..k] + [p[k]];
      if p[k] == v {
        assert v !in multiset(p[..k]);
      }
    }
  }
}
