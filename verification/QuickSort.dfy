/** fallbackQSort3 and fallbackSimpleSort of blocksort.c: sorting a bucket of fmap by eclass. */
module QuickSort {
  import opened Base

  const SMALL_THRESH := 10
  const STACK_SIZE := 100

  /** Every entry of `a` indexes `e`. */
  ghost predicate Indexes(a: seq<int>, e: seq<int>) {
    forall i :: 0 <= i < |a| ==> 0 <= a[i] < |e|
  }

  ghost predicate SortedBy(a: seq<int>, e: seq<int>, lo: int, hi: int)
    requires Indexes(a, e) && 0 <= lo && hi < |a|
  {
    forall p, q :: lo <= p < q <= hi ==> e[a[p]] <= e[a[q]]
  }

  /** `a` is `b` with the entries lo..hi rearranged. */
  ghost predicate Rearranged(a: seq<int>, b: seq<int>, lo: int, hi: int) {
    && |a| == |b|
    && (forall i :: 0 <= i < |a| && !(lo <= i <= hi) ==> a[i] == b[i])
    && multiset(a) == multiset(b)
  }

  lemma RearrangedTransitive(a: seq<int>, b: seq<int>, c: seq<int>, lo: int, hi: int)
    requires Rearranged(a, b, lo, hi) && Rearranged(b, c, lo, hi)
    ensures Rearranged(a, c, lo, hi)
  {
  }

  lemma RearrangedWider(a: seq<int>, b: seq<int>, lo: int, hi: int, lo': int, hi': int)
    requires Rearranged(a, b, lo, hi) && lo' <= lo && hi <= hi'
    ensures Rearranged(a, b, lo', hi')
  {
  }

  lemma RearrangedIndexes(a: seq<int>, b: seq<int>, e: seq<int>)
    requires multiset(a) == multiset(b) && Indexes(b, e)
    ensures Indexes(a, e)
  {
    forall i | 0 <= i < |a|
      ensures 0 <= a[i] < |e|
    {
      assert a[i] in multiset(a);
      assert a[i] in b;
    }
  }

  /** What sits at a position of the range came from a position of the range. */
  lemma RearrangedSource(a: seq<int>, b: seq<int>, lo: nat, hi: nat, p: nat) returns (q: nat)
    requires Rearranged(a, b, lo, hi) && lo <= p <= hi < |a|
    ensures lo <= q <= hi && a[p] == b[q]
  {
    assert a[..lo] == b[..lo] && a[hi + 1..] == b[hi + 1..];
    MultisetOfRange(a, b, lo, hi + 1);
    assert a[p] == a[lo..hi + 1][p - lo];
    assert a[p] in multiset(a[lo..hi + 1]);
    assert a[p] in b[lo..hi + 1];
    var k :| 0 <= k < |b[lo..hi + 1]| && b[lo..hi + 1][k] == a[p];
    q := lo + k;
  }

  method Swap(fmap: array<int>, i: nat, j: nat)
    requires i < fmap.Length && j < fmap.Length
    modifies fmap
    ensures fmap[..] == old(fmap[..])[i := old(fmap[j])][j := old(fmap[i])]
    ensures multiset(fmap[..]) == multiset(old(fmap[..]))
  {
    SwapKeepsMultiset(fmap[..], i, j);
    var tmp := fmap[i];
    fmap[i] := fmap[j];
    fmap[j] := tmp;
  }

  // ---- fallbackSimpleSort ----

  /** `s` is a rearrangement of `origin` within i..hi once `tmp` is put back at `at`. */
  ghost predicate Hole(s: seq<int>, origin: seq<int>, tmp: int, at: int, i: int, hi: int) {
    0 <= at < |s| && Rearranged(s[at := tmp], origin, i, hi)
  }

  lemma HoleStart(s: seq<int>, i: nat, hi: nat)
    requires i < |s|
    ensures Hole(s, s, s[i], i, i, hi)
  {
    assert s[i := s[i]] == s;
  }

  /** Moving the hole that waits for `tmp` from `at` up to `j`. */
  lemma HoleMoves(s: seq<int>, origin: seq<int>, tmp: int, at: nat, j: nat, i: nat, hi: nat)
    requires Hole(s, origin, tmp, at, i, hi) && i <= at < j <= hi < |s|
    ensures Hole(s[at := s[j]], origin, tmp, j, i, hi)
  {
    var t := s[at := tmp];
    SwapKeepsMultiset(t, at, j);
    assert t[at := t[j]][j := t[at]] == s[at := s[j]][j := tmp];
  }

  /** One stride of the carry: fmap[j] drops into the hole at `at`, which moves up to `j`. */
  method Carry(fmap: array<int>, eclass: seq<int>, ghost tmp: int, at: nat, j: nat, ghost i: nat, ghost hi: nat,
          ghost origin: seq<int>)
    requires Indexes(fmap[..], eclass) && i <= at < j <= hi < fmap.Length && Hole(fmap[..], origin, tmp, at, i, hi)
    modifies fmap
    ensures Indexes(fmap[..], eclass) && Hole(fmap[..], origin, tmp, j, i, hi)
  {
    ghost var s := fmap[..];
    HoleMoves(s, origin, tmp, at, j, i, hi);
    fmap[at] := fmap[j];
    assert fmap[..] == s[at := s[j]];
  }

  method FillHole(fmap: array<int>, eclass: seq<int>, tmp: int, at: nat, ghost i: nat, ghost hi: nat,
          ghost origin: seq<int>)
    requires Indexes(origin, eclass) && at < fmap.Length && Hole(fmap[..], origin, tmp, at, i, hi)
    modifies fmap
    ensures Indexes(fmap[..], eclass) && Rearranged(fmap[..], origin, i, hi)
  {
    ghost var s := fmap[..];
    fmap[at] := tmp;
    assert fmap[..] == s[at := tmp];
    RearrangedIndexes(fmap[..], origin, eclass);
  }

  /** First pass of fallbackSimpleSort: carry fmap[i] up in strides of four. */
  method InsertByFour(fmap: array<int>, eclass: seq<int>, i: nat, hi: nat)
    requires i <= hi < fmap.Length && Indexes(fmap[..], eclass)
    modifies fmap
    ensures Rearranged(fmap[..], old(fmap[..]), i, hi)
    ensures Indexes(fmap[..], eclass)
  {
    hide Rearranged;
    var tmp := fmap[i];
    var ecTmp := eclass[tmp];
    var j := i + 4;
    ghost var origin := fmap[..];
    HoleStart(origin, i, hi);
    while j <= hi && ecTmp > eclass[fmap[j]]
      invariant i + 4 <= j <= hi + 4
      invariant Indexes(fmap[..], eclass) && Hole(fmap[..], origin, tmp, j - 4, i, hi)
      decreases hi + 4 - j
    {
      Carry(fmap, eclass, tmp, j - 4, j, i, hi, origin);
      j := j + 4;
    }
    FillHole(fmap, eclass, tmp, j - 4, i, hi, origin);
  }

  /** `t` is `s` with the entries above `i`, all smaller than s[i], moved down to close up to `m`. */
  ghost predicate Shifted(s: seq<int>, t: seq<int>, e: seq<int>, i: nat, m: nat) {
    && |t| == |s| && i <= m < |s| && Indexes(s, e)
    && (forall k {:trigger t[k]} :: 0 <= k < |s| && (k < i || k > m) ==> t[k] == s[k])
    && (forall k {:trigger t[k]} :: i <= k < m ==> t[k] == s[k + 1] && e[s[k + 1]] < e[s[i]])
  }

  lemma ShiftOne(s: seq<int>, t: seq<int>, u: seq<int>, e: seq<int>, i: nat, m: nat)
    requires Shifted(s, t, e, i, m) && m + 1 < |s| && e[s[m + 1]] < e[s[i]] && u == t[m := s[m + 1]]
    ensures Shifted(s, u, e, i, m + 1)
  {
    assert u[m] == s[m + 1];
    forall k {:trigger u[k]} | 0 <= k < |s| && k != m
      ensures u[k] == t[k]
    {
    }
  }

  lemma NextUnshifted(s: seq<int>, t: seq<int>, e: seq<int>, i: nat, m: nat)
    requires Shifted(s, t, e, i, m) && m + 1 < |s|
    ensures t[m + 1] == s[m + 1]
  {
  }

  /** The inner loop of the second pass: shift down what is smaller than fmap[i]; `m` is the gap left. */
  method ShiftSmaller(fmap: array<int>, eclass: seq<int>, i: nat, hi: nat) returns (m: nat)
    requires i <= hi < fmap.Length && Indexes(fmap[..], eclass)
    modifies fmap
    ensures m <= hi && Shifted(old(fmap[..]), fmap[..], eclass, i, m)
    ensures m < hi ==> eclass[old(fmap[..])[i]] <= eclass[old(fmap[..])[m + 1]]
  {
    var ecTmp := eclass[fmap[i]];
    ghost var s := fmap[..];
    m := i;
    while m + 1 <= hi && ecTmp > eclass[fmap[m + 1]]
      invariant m <= hi && Shifted(s, fmap[..], eclass, i, m)
      decreases hi - m
    {
      ghost var t := fmap[..];
      NextUnshifted(s, t, eclass, i, m);
      fmap[m] := fmap[m + 1];
      ShiftOne(s, t, fmap[..], eclass, i, m);
      m := m + 1;
    }
  }

  /** Second pass of fallbackSimpleSort: plain insertion into the sorted tail. */
  method InsertByOne(fmap: array<int>, eclass: seq<int>, i: nat, hi: nat)
    requires i <= hi < fmap.Length
    requires Indexes(fmap[..], eclass) && SortedBy(fmap[..], eclass, i + 1, hi)
    modifies fmap
    ensures Rearranged(fmap[..], old(fmap[..]), i, hi)
    ensures Indexes(fmap[..], eclass) && SortedBy(fmap[..], eclass, i, hi)
  {
    var tmp := fmap[i];
    ghost var s := fmap[..];
    var m := ShiftSmaller(fmap, eclass, i, hi);
    ghost var t := fmap[..];
    fmap[m] := tmp;
    assert fmap[..] == t[m := s[i]];
    InsertionRearranges(s, t, eclass, i, m, hi);
    InsertionSorts(s, t, eclass, i, m, hi);
  }

  lemma InsertionRearranges(s: seq<int>, t: seq<int>, e: seq<int>, i: nat, m: nat, hi: nat)
    requires Shifted(s, t, e, i, m) && m <= hi < |s|
    ensures Rearranged(t[m := s[i]], s, i, hi) && Indexes(t[m := s[i]], e)
  {
    var u := t[m := s[i]];
    InsertionParts(s, t, e, i, m);
    MovedPast(s[..i], s[i], s[i + 1..m + 1], s[m + 1..]);
    RearrangedIndexes(u, s, e);
  }

  /** The inserted entry changes places with the stretch behind it. */
  lemma InsertionParts(s: seq<int>, t: seq<int>, e: seq<int>, i: nat, m: nat)
    requires Shifted(s, t, e, i, m)
    ensures s == s[..i] + [s[i]] + s[i + 1..m + 1] + s[m + 1..]
    ensures t[m := s[i]] == s[..i] + s[i + 1..m + 1] + [s[i]] + s[m + 1..]
  {
  }

  lemma MovedPast(a: seq<int>, x: int, b: seq<int>, c: seq<int>)
    ensures multiset(a + [x] + b + c) == multiset(a + b + [x] + c)
  {
  }

  lemma InsertionSorts(s: seq<int>, t: seq<int>, e: seq<int>, i: nat, m: nat, hi: nat)
    requires Shifted(s, t, e, i, m) && m <= hi < |s| && (m < hi ==> e[s[i]] <= e[s[m + 1]])
    requires SortedBy(s, e, i + 1, hi) && Indexes(t[m := s[i]], e)
    ensures SortedBy(t[m := s[i]], e, i, hi)
  {
    var u := t[m := s[i]];
    forall p, q | i <= p < q <= hi
      ensures e[u[p]] <= e[u[q]]
    {
      var p' := if p < m then p + 1 else p;
      var q' := if q < m then q + 1 else q;
      assert p != m ==> u[p] == t[p] == s[p'];
      assert q != m ==> u[q] == t[q] == s[q'];
      assert p == m ==> e[s[m + 1]] <= e[s[q]];
    }
  }

  method SimpleSort(fmap: array<int>, eclass: seq<int>, lo: nat, hi: int)
    requires lo <= hi + 1 <= fmap.Length
    requires Indexes(fmap[..], eclass)
    modifies fmap
    ensures Rearranged(fmap[..], old(fmap[..]), lo, hi)
    ensures Indexes(fmap[..], eclass) && SortedBy(fmap[..], eclass, lo, hi)
  {
    if lo == hi {
      return;
    }
    if hi - lo > 3 {
      var i := hi - 4;
      while i >= lo
        invariant lo - 1 <= i <= hi - 4
        invariant Rearranged(fmap[..], old(fmap[..]), lo, hi) && Indexes(fmap[..], eclass)
      {
        InsertByFour(fmap, eclass, i, hi);
        i := i - 1;
      }
    }
    var i := hi - 1;
    while i >= lo
      invariant lo - 2 <= i <= hi - 1
      invariant Rearranged(fmap[..], old(fmap[..]), lo, hi) && Indexes(fmap[..], eclass)
      invariant lo <= hi ==> lo <= i + 1 && SortedBy(fmap[..], eclass, i + 1, hi)
    {
      InsertByOne(fmap, eclass, i, hi);
      i := i - 1;
    }
  }

  // ---- fallbackQSort3: three-way partition ----

  /** Between the scans: equal | less | unknown | greater | equal. */
  ghost predicate Split(a: seq<int>, e: seq<int>, med: int, lo: int, ltLo: int, unLo: int, unHi: int, gtHi: int,
          hi: int) {
    && 0 <= lo <= ltLo <= unLo <= unHi + 1 && unHi <= gtHi <= hi < |a|
    && Indexes(a, e)
    && (forall k :: lo <= k < ltLo ==> e[a[k]] == med)
    && (forall k :: ltLo <= k < unLo ==> e[a[k]] < med)
    && (forall k :: unHi < k <= gtHi ==> e[a[k]] > med)
    && (forall k :: gtHi < k <= hi ==> e[a[k]] == med)
  }

  /** A swap inside lo..hi, and what it leaves of the rest. */
  method SwapIn(fmap: array<int>, eclass: seq<int>, i: nat, j: nat, lo: nat, hi: nat, ghost origin: seq<int>)
    requires lo <= i <= hi && lo <= j <= hi < fmap.Length && Indexes(fmap[..], eclass)
    requires Rearranged(fmap[..], origin, lo, hi)
    modifies fmap
    ensures fmap[..] == old(fmap[..])[i := old(fmap[..])[j]][j := old(fmap[..])[i]]
    ensures Indexes(fmap[..], eclass) && Rearranged(fmap[..], origin, lo, hi)
  {
    Swap(fmap, i, j);
  }

  method ScanUp(fmap: array<int>, eclass: seq<int>, med: int, lo: nat, lt: nat, un: nat, unHi: int, gtHi: int, hi: nat,
                ghost origin: seq<int>)
    returns (ltLo: nat, unLo: nat)
    requires Split(fmap[..], eclass, med, lo, lt, un, unHi, gtHi, hi) && Rearranged(fmap[..], origin, lo, hi)
    modifies fmap
    ensures Split(fmap[..], eclass, med, lo, ltLo, unLo, unHi, gtHi, hi) && Rearranged(fmap[..], origin, lo, hi)
    ensures unLo >= un && (unLo <= unHi ==> eclass[fmap[..][unLo]] > med)
  {
    hide Rearranged;
    ltLo, unLo := lt, un;
    while unLo <= unHi && eclass[fmap[unLo]] <= med
      invariant Split(fmap[..], eclass, med, lo, ltLo, unLo, unHi, gtHi, hi) && Rearranged(fmap[..], origin, lo, hi)
      invariant un <= unLo
      decreases unHi - unLo
    {
      if eclass[fmap[unLo]] == med {
        SwapIn(fmap, eclass, unLo, ltLo, lo, hi, origin);
        ltLo, unLo := ltLo + 1, unLo + 1;
      } else {
        unLo := unLo + 1;
      }
    }
  }

  method ScanDown(fmap: array<int>, eclass: seq<int>, med: int, lo: nat, ltLo: nat, unLo: nat, un: int, gt: int,
          hi: nat,
                  ghost origin: seq<int>)
    returns (unHi: int, gtHi: int)
    requires Split(fmap[..], eclass, med, lo, ltLo, unLo, un, gt, hi) && Rearranged(fmap[..], origin, lo, hi)
    requires unLo <= un ==> eclass[fmap[..][unLo]] > med
    modifies fmap
    ensures Split(fmap[..], eclass, med, lo, ltLo, unLo, unHi, gtHi, hi) && Rearranged(fmap[..], origin, lo, hi)
    ensures unHi <= un
    ensures unLo <= unHi ==> unLo < unHi && eclass[fmap[..][unHi]] < med && eclass[fmap[..][unLo]] > med
  {
    hide Rearranged;
    unHi, gtHi := un, gt;
    while unLo <= unHi && eclass[fmap[unHi]] >= med
      invariant Split(fmap[..], eclass, med, lo, ltLo, unLo, unHi, gtHi, hi) && Rearranged(fmap[..], origin, lo, hi)
      invariant unHi <= un && (unLo <= unHi ==> eclass[fmap[..][unLo]] > med)
      decreases unHi - unLo
    {
      if eclass[fmap[unHi]] == med {
        SwapIn(fmap, eclass, unHi, gtHi, lo, hi, origin);
        gtHi, unHi := gtHi - 1, unHi - 1;
      } else {
        unHi := unHi - 1;
      }
    }
  }

  lemma CrossSwap(a: seq<int>, e: seq<int>, med: int, lo: nat, ltLo: nat, unLo: nat, unHi: nat, gtHi: int, hi: nat)
    requires Split(a, e, med, lo, ltLo, unLo, unHi, gtHi, hi)
    requires unLo < unHi && e[a[unHi]] < med && e[a[unLo]] > med
    ensures Split(a[unLo := a[unHi]][unHi := a[unLo]], e, med, lo, ltLo, unLo + 1, unHi - 1, gtHi, hi)
  {
  }

  /** Swap the two elements the scans stopped at. */
  method Cross(fmap: array<int>, eclass: seq<int>, med: int, lo: nat, ltLo: nat, unLo: nat, unHi: nat, gtHi: int,
          hi: nat,
               ghost origin: seq<int>)
    requires Split(fmap[..], eclass, med, lo, ltLo, unLo, unHi, gtHi, hi) && Rearranged(fmap[..], origin, lo, hi)
    requires unLo < unHi && eclass[fmap[..][unHi]] < med && eclass[fmap[..][unLo]] > med
    modifies fmap
    ensures Split(fmap[..], eclass, med, lo, ltLo, unLo + 1, unHi - 1, gtHi, hi) && Rearranged(fmap[..], origin, lo, hi)
  {
    CrossSwap(fmap[..], eclass, med, lo, ltLo, unLo, unHi, gtHi, hi);
    SwapIn(fmap, eclass, unLo, unHi, lo, hi, origin);
  }

  method Partition(fmap: array<int>, eclass: seq<int>, med: int, lo: nat, hi: nat, ghost origin: seq<int>)
    returns (ltLo: nat, unLo: nat, gtHi: int)
    requires lo <= hi < fmap.Length && Indexes(fmap[..], eclass) && origin == fmap[..]
    modifies fmap
    ensures Split(fmap[..], eclass, med, lo, ltLo, unLo, unLo - 1, gtHi, hi)
    ensures Rearranged(fmap[..], origin, lo, hi)
  {
    ltLo, unLo, gtHi := lo, lo, hi;
    var unHi: int := hi;
    ltLo, unLo := ScanUp(fmap, eclass, med, lo, ltLo, unLo, unHi, gtHi, hi, origin);
    unHi, gtHi := ScanDown(fmap, eclass, med, lo, ltLo, unLo, unHi, gtHi, hi, origin);
    while unLo <= unHi
      invariant Split(fmap[..], eclass, med, lo, ltLo, unLo, unHi, gtHi, hi) && Rearranged(fmap[..], origin, lo, hi)
      invariant unLo <= unHi ==> unLo < unHi && eclass[fmap[..][unHi]] < med && eclass[fmap[..][unLo]] > med
      decreases unHi - unLo
    {
      Cross(fmap, eclass, med, lo, ltLo, unLo, unHi, gtHi, hi, origin);
      ltLo, unLo := ScanUp(fmap, eclass, med, lo, ltLo, unLo + 1, unHi - 1, gtHi, hi, origin);
      unHi, gtHi := ScanDown(fmap, eclass, med, lo, ltLo, unLo, unHi - 1, gtHi, hi, origin);
    }
  }

  // ---- fallbackQSort3: gathering the equal keys in the middle ----

  /** `t` is `s` with the `n` entries at `p1` and at `p2` exchanged. */
  ghost predicate BlocksSwapped(s: seq<int>, t: seq<int>, p1: int, p2: int, n: int) {
    && |t| == |s| && 0 <= p1 && p1 + n <= p2 && 0 <= n && p2 + n <= |s|
    && (forall k {:trigger t[k]} :: p1 <= k < p1 + n ==> t[k] == s[k + (p2 - p1)])
    && (forall k {:trigger t[k]} :: p2 <= k < p2 + n ==> t[k] == s[k - (p2 - p1)])
    && (forall k {:trigger t[k]} :: 0 <= k < |s| && !(p1 <= k < p1 + n) && !(p2 <= k < p2 + n) ==> t[k] == s[k])
  }

  method VSwap(fmap: array<int>, p1: nat, p2: nat, n: nat)
    requires p1 + n <= p2 && p2 + n <= fmap.Length
    modifies fmap
    ensures BlocksSwapped(old(fmap[..]), fmap[..], p1, p2, n)
    ensures multiset(fmap[..]) == multiset(old(fmap[..]))
  {
    var k := 0;
    while k < n
      invariant k <= n
      invariant BlocksSwapped(old(fmap[..]), fmap[..], p1, p2, k)
      invariant multiset(fmap[..]) == multiset(old(fmap[..]))
    {
      Swap(fmap, p1 + k, p2 + k);
      k := k + 1;
    }
  }

  /** less | equal | greater, the equal part running from n+1 to m-1. */
  ghost predicate Grouped(a: seq<int>, e: seq<int>, med: int, lo: int, n: int, m: int, hi: int) {
    && 0 <= lo <= n + 1 <= m <= hi + 1 <= |a| && Indexes(a, e)
    && (forall k :: lo <= k <= n ==> e[a[k]] < med)
    && (forall k :: n < k < m ==> e[a[k]] == med)
    && (forall k :: m <= k <= hi ==> e[a[k]] > med)
  }

  /** Positions of the left part after the first block swap. */
  ghost predicate LeftDone(a: seq<int>, e: seq<int>, med: int, lo: int, mid: int, unLo: int, gtHi: int, hi: int) {
    && 0 <= lo <= mid <= unLo <= gtHi + 1 <= hi + 1 <= |a| && Indexes(a, e)
    && (forall k :: lo <= k < mid ==> e[a[k]] < med)
    && (forall k :: mid <= k < unLo ==> e[a[k]] == med)
    && (forall k :: unLo <= k <= gtHi ==> e[a[k]] > med)
    && (forall k :: gtHi < k <= hi ==> e[a[k]] == med)
  }

  lemma LeftGathered(s: seq<int>, t: seq<int>, e: seq<int>, med: int, lo: nat, ltLo: nat, unLo: nat, gtHi: int,
          hi: nat, n: nat)
    requires Split(s, e, med, lo, ltLo, unLo, unLo - 1, gtHi, hi) && Indexes(t, e)
    requires n == (if ltLo - lo < unLo - ltLo then ltLo - lo else unLo - ltLo)
    requires BlocksSwapped(s, t, lo, unLo - n, n)
    ensures LeftDone(t, e, med, lo, lo + unLo - ltLo, unLo, gtHi, hi)
  {
  }

  lemma RightGathered(s: seq<int>, t: seq<int>, e: seq<int>, med: int, lo: nat, mid: nat, unLo: nat, gtHi: int,
          hi: nat, m: nat)
    requires LeftDone(s, e, med, lo, mid, unLo, gtHi, hi) && Indexes(t, e)
    requires m == (if hi - gtHi < gtHi - (unLo - 1) then hi - gtHi else gtHi - (unLo - 1))
    requires BlocksSwapped(s, t, unLo, hi - m + 1, m)
    ensures Grouped(t, e, med, lo, mid - 1, hi - (gtHi - (unLo - 1)) + 1, hi)
  {
  }

  lemma SwapRearranges(s: seq<int>, t: seq<int>, origin: seq<int>, p1: int, p2: int, n: int, lo: int, hi: int)
    requires BlocksSwapped(s, t, p1, p2, n) && multiset(s) == multiset(t)
    requires lo <= p1 && p2 + n <= hi + 1 && Rearranged(s, origin, lo, hi)
    ensures Rearranged(t, origin, lo, hi)
  {
    assert forall i {:trigger t[i]} :: 0 <= i < |s| && !(lo <= i <= hi) ==> t[i] == s[i];
  }

  method GatherLeft(fmap: array<int>, eclass: seq<int>, med: int, lo: nat, ltLo: nat, unLo: nat, gtHi: int, hi: nat,
                    ghost origin: seq<int>)
    requires Split(fmap[..], eclass, med, lo, ltLo, unLo, unLo - 1, gtHi, hi) && Rearranged(fmap[..], origin, lo, hi)
    modifies fmap
    ensures LeftDone(fmap[..], eclass, med, lo, lo + unLo - ltLo, unLo, gtHi, hi)
    ensures Rearranged(fmap[..], origin, lo, hi)
  {
    hide Rearranged, BlocksSwapped;
    ghost var s := fmap[..];
    var n := if ltLo - lo < unLo - ltLo then ltLo - lo else unLo - ltLo;
    VSwap(fmap, lo, unLo - n, n);
    ghost var t := fmap[..];
    RearrangedIndexes(t, s, eclass);
    LeftGathered(s, t, eclass, med, lo, ltLo, unLo, gtHi, hi, n);
    SwapRearranges(s, t, origin, lo, unLo - n, n, lo, hi);
  }

  method GatherRight(fmap: array<int>, eclass: seq<int>, med: int, lo: nat, mid: nat, unLo: nat, gtHi: int, hi: nat,
                     ghost origin: seq<int>)
    requires LeftDone(fmap[..], eclass, med, lo, mid, unLo, gtHi, hi) && Rearranged(fmap[..], origin, lo, hi)
    modifies fmap
    ensures Grouped(fmap[..], eclass, med, lo, mid - 1, hi - (gtHi - (unLo - 1)) + 1, hi)
    ensures Rearranged(fmap[..], origin, lo, hi)
  {
    hide Rearranged, BlocksSwapped;
    ghost var s := fmap[..];
    var m := if hi - gtHi < gtHi - (unLo - 1) then hi - gtHi else gtHi - (unLo - 1);
    VSwap(fmap, unLo, hi - m + 1, m);
    ghost var t := fmap[..];
    RearrangedIndexes(t, s, eclass);
    RightGathered(s, t, eclass, med, lo, mid, unLo, gtHi, hi, m);
    SwapRearranges(s, t, origin, unLo, hi - m + 1, m, lo, hi);
  }

  // ---- fallbackQSort3: the explicit stack ----

  type Stack = seq<(int, int)>

  ghost predicate SameRange(stack: Stack, p: int, q: int) {
    exists s :: 0 <= s < |stack| && stack[s].0 <= p && q <= stack[s].1
  }

  /** lo..hi is in order except inside the ranges still on the stack. */
  ghost predicate SortedModulo(a: seq<int>, e: seq<int>, stack: Stack, lo: int, hi: int)
    requires Indexes(a, e) && 0 <= lo && hi < |a|
  {
    forall p, q :: lo <= p < q <= hi ==> e[a[p]] <= e[a[q]] || SameRange(stack, p, q)
  }

  ghost predicate Disjoint(stack: Stack) {
    forall s, t :: 0 <= s < t < |stack| ==> stack[s].1 < stack[t].0 || stack[t].1 < stack[s].0
  }

  ghost predicate Within(stack: Stack, lo: int, hi: int) {
    forall s :: 0 <= s < |stack| ==> lo <= stack[s].0 <= stack[s].1 + 1 && stack[s].1 <= hi
  }

  function Size(r: (int, int)): int {
    r.1 - r.0 + 1
  }

  /** Position s holds at most total / 2^s elements: the larger part is pushed first. */
  ghost predicate Halving(stack: Stack, total: int) {
    forall s :: 0 <= s < |stack| ==> Size(stack[s]) * Pow2(s) <= total
  }

  function Work(stack: Stack): (w: int)
    requires forall s :: 0 <= s < |stack| ==> Size(stack[s]) >= 0
    ensures w >= 0
  {
    if stack == [] then 0 else Work(stack[..|stack| - 1]) + 2 * Size(stack[|stack| - 1]) + 1
  }

  /** One popped range is replaced by the ranges that still separate its unordered pairs. */
  lemma Refine(a: seq<int>, b: seq<int>, e: seq<int>, stack: Stack, lo: nat, hi: int, new_: Stack, loSt: nat, hiSt: nat)
    requires Indexes(a, e) && Indexes(b, e) && loSt <= lo <= hi + 1 && hi <= hiSt < |a|
    requires Rearranged(b, a, lo, hi)
    requires SortedModulo(a, e, stack + [(lo, hi)], loSt, hiSt) && Disjoint(stack + [(lo, hi)])
    requires forall p, q :: lo <= p < q <= hi ==> e[b[p]] <= e[b[q]] || SameRange(new_, p, q)
    ensures SortedModulo(b, e, stack + new_, loSt, hiSt)
  {
    var full := stack + [(lo, hi)];
    assert full[|stack|] == (lo, hi);
    forall p, q | loSt <= p < q <= hiSt
      ensures e[b[p]] <= e[b[q]] || SameRange(stack + new_, p, q)
    {
      if lo <= p && q <= hi {
        if SameRange(new_, p, q) {
          var s :| 0 <= s < |new_| && new_[s].0 <= p && q <= new_[s].1;
          assert (stack + new_)[|stack| + s] == new_[s];
        }
      } else {
        var p', q' := p, q;
        if lo <= p <= hi {
          p' := RearrangedSource(b, a, lo, hi, p);
        }
        if lo <= q <= hi {
          q' := RearrangedSource(b, a, lo, hi, q);
        }
        assert b[p] == a[p'] && b[q] == a[q'] && p' < q';
        if SameRange(full, p', q') {
          var s :| 0 <= s < |full| && full[s].0 <= p' && q' <= full[s].1;
          assert s < |stack|;
          assert full[s].1 < lo || hi < full[s].0;
          assert (stack + new_)[s] == full[s];
        }
      }
    }
  }

  lemma Scale(a: int, b: int, p: nat)
    requires a <= b
    ensures a * p <= b * p
  {
  }

  lemma HalvingStep(size: int, r1: int, r2: int, depth: nat, total: int)
    requires size * Pow2(depth) <= total && r1 <= size && 2 * r2 <= size
    ensures r1 * Pow2(depth) <= total && r2 * Pow2(depth + 1) <= total
  {
    var p := Pow2(depth);
    Scale(r1, size, p);
    Scale(2 * r2, size, p);
    assert r2 * (2 * p) == (2 * r2) * p;
  }

  lemma PushPlaced(stack: Stack, lo: int, hi: int, r1: (int, int), r2: (int, int), loSt: int, hiSt: int)
    requires Within(stack + [(lo, hi)], loSt, hiSt) && Disjoint(stack + [(lo, hi)])
    requires lo <= r1.0 <= r1.1 + 1 && r1.1 <= hi && lo <= r2.0 <= r2.1 + 1 && r2.1 <= hi
    requires r1.1 < r2.0 || r2.1 < r1.0
    ensures Within(stack + [r1, r2], loSt, hiSt) && Disjoint(stack + [r1, r2])
  {
    var full, s, depth := stack + [(lo, hi)], stack + [r1, r2], |stack|;
    assert full[depth] == (lo, hi) && s[depth] == r1 && s[depth + 1] == r2;
    forall i | 0 <= i < depth
      ensures s[i] == full[i] && (full[i].1 < lo || hi < full[i].0)
    {
    }
  }

  lemma PushHalving(stack: Stack, r: (int, int), r1: (int, int), r2: (int, int), total: int)
    requires Halving(stack + [r], total) && Size(r1) <= Size(r) && 2 * Size(r2) <= Size(r)
    ensures Halving(stack + [r1, r2], total)
  {
    hide Size, Pow2;
    var full, s, depth := stack + [r], stack + [r1, r2], |stack|;
    assert full[depth] == r && s[depth] == r1 && s[depth + 1] == r2;
    HalvingStep(Size(r), Size(r1), Size(r2), depth, total);
    forall i | 0 <= i < |s|
      ensures Size(s[i]) * Pow2(i) <= total
    {
      if i < depth {
        assert s[i] == full[i] && Size(full[i]) * Pow2(i) <= total;
      }
    }
  }

  lemma PopKeeps(stack: Stack, r: (int, int), loSt: int, hiSt: int, total: int)
    requires Within(stack + [r], loSt, hiSt) && Disjoint(stack + [r]) && Halving(stack + [r], total)
    ensures Within(stack, loSt, hiSt) && Disjoint(stack) && Halving(stack, total)
    ensures loSt <= r.0 <= r.1 + 1 && r.1 <= hiSt && Size(r) * Pow2(|stack|) <= total
  {
    var full := stack + [r];
    assert full[|stack|] == r;
    assert forall i :: 0 <= i < |stack| ==> stack[i] == full[i];
  }

  lemma WorkOfPush(stack: Stack, r: (int, int))
    requires forall s :: 0 <= s < |stack| ==> Size(stack[s]) >= 0
    requires Size(r) >= 0
    ensures forall s :: 0 <= s < |stack + [r]| ==> Size((stack + [r])[s]) >= 0
    ensures Work(stack + [r]) == Work(stack) + 2 * Size(r) + 1
  {
    assert (stack + [r])[..|stack|] == stack;
  }

  /** Partition one range around `med`, the key of one of its elements. */
  method Divide(fmap: array<int>, eclass: seq<int>, pivot: nat, lo: nat, hi: nat) returns (done: bool, n: int, m: int)
    requires lo <= pivot <= hi < fmap.Length && Indexes(fmap[..], eclass)
    modifies fmap
    ensures Rearranged(fmap[..], old(fmap[..]), lo, hi) && Indexes(fmap[..], eclass)
    ensures done ==> SortedBy(fmap[..], eclass, lo, hi)
    ensures !done ==> n + 1 < m && Grouped(fmap[..], eclass, eclass[old(fmap[..])[pivot]], lo, n, m, hi)
  {
    ghost var origin := fmap[..];
    var med := eclass[fmap[pivot]];
    var ltLo, unLo, gtHi := Partition(fmap, eclass, med, lo, hi, origin);
    if gtHi < ltLo {
      done, n, m := true, lo, lo;
    } else {
      GatherLeft(fmap, eclass, med, lo, ltLo, unLo, gtHi, hi, origin);
      GatherRight(fmap, eclass, med, lo, lo + unLo - ltLo, unLo, gtHi, hi, origin);
      n := lo + unLo - ltLo - 1;
      m := hi - gtHi + unLo;
      done := false;
      ghost var k := RearrangedSource(origin, fmap[..], lo, hi, pivot);
      assert n < k < m;
    }
  }

  /** The depth reached when a range of more than SMALL_THRESH elements is split. */
  lemma {:induction false} StackBound(depth: nat, total: int)
    requires (SMALL_THRESH + 1) * Pow2(depth) <= total <= 900000
    ensures depth + 2 < STACK_SIZE - 1
  {
    Pow2Values();
    if depth >= 17 {
      Pow2Monotone(17, depth);
    }
  }

  ghost predicate StackOk(stack: Stack, lo: int, hi: int) {
    && Within(stack, lo, hi) && Disjoint(stack) && Halving(stack, hi - lo + 1)
    && (forall s :: 0 <= s < |stack| ==> Size(stack[s]) >= 0)
  }

  /** What is out of order after a partition lies in one of its sides. */
  lemma GroupedSides(b: seq<int>, e: seq<int>, med: int, lo: nat, n: int, m: int, hi: nat,
                     r1: (int, int), r2: (int, int))
    requires Grouped(b, e, med, lo, n, m, hi) && {r1, r2} == {(lo as int, n), (m, hi as int)}
    ensures forall p, q :: lo <= p < q <= hi ==> e[b[p]] <= e[b[q]] || SameRange([r1, r2], p, q)
  {
    assert [r1, r2][0] == r1 && [r1, r2][1] == r2;
    assert r1 in {r1, r2} && r2 in {r1, r2};
    forall p, q | lo <= p < q <= hi
      ensures e[b[p]] <= e[b[q]] || SameRange([r1, r2], p, q)
    {
    }
  }

  /** The stack and its work when a popped range is replaced by its two sides. */
  lemma PushRanges(rest: Stack, lo: nat, hi: nat, r1: (int, int), r2: (int, int), loSt: nat, hiSt: nat)
    requires StackOk(rest + [(lo, hi)], loSt, hiSt) && forall s :: 0 <= s < |rest| ==> Size(rest[s]) >= 0
    requires lo <= r1.0 <= r1.1 + 1 && r1.1 <= hi && lo <= r2.0 <= r2.1 + 1 && r2.1 <= hi
    requires (r1.1 < r2.0 || r2.1 < r1.0) && 2 * Size(r2) <= Size((lo, hi)) && Size(r1) + Size(r2) < Size((lo, hi))
    ensures StackOk(rest + [r1, r2], loSt, hiSt) && Work(rest + [r1, r2]) < Work(rest) + 2 * Size((lo, hi)) + 1
  {
    hide Within, Disjoint, Halving, Work;
    PushPlaced(rest, lo, hi, r1, r2, loSt, hiSt);
    PushHalving(rest, (lo, hi), r1, r2, hiSt - loSt + 1);
    WorkOfPush(rest, r1);
    WorkOfPush(rest + [r1], r2);
    assert rest + [r1] + [r2] == rest + [r1, r2];
  }

  /** Replacing a popped range by its two sides, smaller side on top. */
  lemma PushSides(a: seq<int>, b: seq<int>, e: seq<int>, rest: Stack, lo: nat, hi: nat, n: int, m: int, med: int,
                  r1: (int, int), r2: (int, int), loSt: nat, hiSt: nat)
    requires Indexes(a, e) && loSt <= lo && hi <= hiSt < |a| && lo <= hi
    requires Rearranged(b, a, lo, hi) && Grouped(b, e, med, lo, n, m, hi) && n + 1 < m
    requires SortedModulo(a, e, rest + [(lo, hi)], loSt, hiSt) && StackOk(rest + [(lo, hi)], loSt, hiSt)
    requires (r1 == (lo, n) && r2 == (m, hi) && n - lo > hi - m) || (r1 == (m, hi) && r2 == (lo, n) && n - lo <= hi - m)
    requires forall s :: 0 <= s < |rest| ==> Size(rest[s]) >= 0
    ensures SortedModulo(b, e, rest + [r1, r2], loSt, hiSt) && StackOk(rest + [r1, r2], loSt, hiSt)
    ensures Work(rest + [r1, r2]) < Work(rest) + 2 * Size((lo, hi)) + 1
  {
    hide Rearranged, Within, Disjoint, Halving, Work, SortedModulo;
    GroupedSides(b, e, med, lo, n, m, hi, r1, r2);
    Refine(a, b, e, rest, lo, hi, [r1, r2], loSt, hiSt);
    PushRanges(rest, lo, hi, r1, r2, loSt, hiSt);
  }

  /** One trip round the loop of fallbackQSort3 on the popped range lo..hi; `sides` is what it pushes. */
  method Round(fmap: array<int>, eclass: seq<int>, pivot: nat, lo: nat, hi: nat, ghost rest: Stack, loSt: nat,
          hiSt: nat)
    returns (sides: Stack)
    requires loSt <= lo <= pivot <= hi <= hiSt < fmap.Length && Indexes(fmap[..], eclass)
    requires StackOk(rest + [(lo, hi)], loSt, hiSt) && SortedModulo(fmap[..], eclass, rest + [(lo, hi)], loSt, hiSt)
    requires forall s :: 0 <= s < |rest| ==> Size(rest[s]) >= 0
    modifies fmap
    ensures Rearranged(fmap[..], old(fmap[..]), lo, hi) && Indexes(fmap[..], eclass)
    ensures |sides| == 0 || |sides| == 2
    ensures sides != [] ==> StackOk(rest + sides, loSt, hiSt)
    ensures SortedModulo(fmap[..], eclass, rest + sides, loSt, hiSt)
    ensures sides != [] ==> Work(rest + sides) < Work(rest) + 2 * Size((lo, hi)) + 1
  {
    ghost var a := fmap[..];
    var done, n, m := Divide(fmap, eclass, pivot, lo, hi);
    if done {
      Refine(a, fmap[..], eclass, rest, lo, hi, [], loSt, hiSt);
      sides := [];
    } else if n - lo > hi - m {
      PushSides(a, fmap[..], eclass, rest, lo, hi, n, m, eclass[a[pivot]], (lo, n), (m, hi), loSt, hiSt);
      sides := [(lo, n), (m, hi)];
    } else {
      PushSides(a, fmap[..], eclass, rest, lo, hi, n, m, eclass[a[pivot]], (m, hi), (lo, n), loSt, hiSt);
      sides := [(m, hi), (lo, n)];
    }
  }

  /** The bound on the stack pointer after `depth` ranges stayed below a split one. */
  ghost predicate PeakOk(peak: nat, total: int) {
    && peak < STACK_SIZE - 1
    && (peak > 2 ==> Pow2(peak - 2) * (SMALL_THRESH + 1) <= total)
  }

  lemma PeakAfterSplit(depth: nat, range: (int, int), total: int)
    requires Size(range) > SMALL_THRESH && Size(range) * Pow2(depth) <= total <= 900000
    ensures PeakOk(depth + 2, total)
  {
    HalvingStep(Size(range), SMALL_THRESH + 1, 0, depth, total);
    StackBound(depth, total);
  }

  lemma Popped(stack: Stack, loSt: int, hiSt: int) returns (rest: Stack, r: (int, int))
    requires stack != [] && StackOk(stack, loSt, hiSt)
    ensures rest == stack[..|stack| - 1] && r == stack[|stack| - 1] && stack == rest + [r]
    ensures StackOk(rest, loSt, hiSt)
    ensures loSt <= r.0 <= r.1 + 1 && r.1 <= hiSt
    ensures Size(r) > SMALL_THRESH && hiSt - loSt + 1 <= 900000 ==> PeakOk(|rest| + 2, hiSt - loSt + 1)
    ensures Work(stack) == Work(rest) + 2 * Size(r) + 1
  {
    rest, r := stack[..|stack| - 1], stack[|stack| - 1];
    assert stack == rest + [r];
    PopKeeps(rest, r, loSt, hiSt, hiSt - loSt + 1);
    if Size(r) > SMALL_THRESH && hiSt - loSt + 1 <= 900000 {
      PeakAfterSplit(|rest|, r, hiSt - loSt + 1);
    }
  }

  /** One trip round the loop of fallbackQSort3: pop a range and sort it or push its two sides. */
  method Turn(fmap: array<int>, eclass: seq<int>, stack: Stack, r: nat, loSt: nat, hiSt: nat)
    returns (stack': Stack, r': nat)
    requires loSt <= hiSt < fmap.Length && hiSt - loSt + 1 <= 900000 && Indexes(fmap[..], eclass)
    requires stack != [] && StackOk(stack, loSt, hiSt) && SortedModulo(fmap[..], eclass, stack, loSt, hiSt)
    modifies fmap
    ensures Rearranged(fmap[..], old(fmap[..]), loSt, hiSt) && Indexes(fmap[..], eclass)
    ensures StackOk(stack', loSt, hiSt) && SortedModulo(fmap[..], eclass, stack', loSt, hiSt)
    ensures Work(stack') < Work(stack)
    ensures |stack'| > |stack| ==> PeakOk(|stack'|, hiSt - loSt + 1)
  {
    hide Rearranged, SortedModulo, Disjoint, Halving;
    ghost var a := fmap[..];
    var (lo, hi) := stack[|stack| - 1];
    var rest := stack[..|stack| - 1];
    ghost var _, _ := Popped(stack, loSt, hiSt);
    r' := r;
    if hi - lo < SMALL_THRESH {
      SimpleSort(fmap, eclass, lo, hi);
      Refine(a, fmap[..], eclass, rest, lo, hi, [], loSt, hiSt);
      stack' := rest;
      assert rest + [] == rest;
    } else {
      r' := (r * 7621 + 1) % 32768;
      var r3 := r' % 3;
      var pivot := if r3 == 0 then lo else if r3 == 1 then (lo + hi) / 2 else hi;
      var sides := Round(fmap, eclass, pivot, lo, hi, rest, loSt, hiSt);
      stack' := rest + sides;
      assert sides == [] ==> stack' == rest;
    }
    RearrangedWider(fmap[..], a, lo, hi, loSt, hiSt);
  }

  /**
   * fallbackQSort3 on a bucket of at most 900000 entries. `peak` is the largest
   * stack pointer ever reached, so assertion 1004 never fires.
   */
  method QSort3(fmap: array<int>, eclass: seq<int>, loSt: nat, hiSt: nat) returns (peak: nat)
    requires loSt <= hiSt < fmap.Length && hiSt - loSt + 1 <= 900000 && Indexes(fmap[..], eclass)
    modifies fmap
    ensures Rearranged(fmap[..], old(fmap[..]), loSt, hiSt) && Indexes(fmap[..], eclass)
    ensures SortedBy(fmap[..], eclass, loSt, hiSt)
    ensures PeakOk(peak, hiSt - loSt + 1)
  {
    var r := 0;
    var stack := [(loSt, hiSt)];
    peak := 1;
    assert stack[0] == (loSt, hiSt);
    while stack != []
      invariant Rearranged(fmap[..], old(fmap[..]), loSt, hiSt) && Indexes(fmap[..], eclass)
      invariant StackOk(stack, loSt, hiSt) && SortedModulo(fmap[..], eclass, stack, loSt, hiSt)
      invariant |stack| <= peak && PeakOk(peak, hiSt - loSt + 1)
      decreases Work(stack)
    {
      ghost var a := fmap[..];
      stack, r := Turn(fmap, eclass, stack, r, loSt, hiSt);
      RearrangedTransitive(fmap[..], a, old(fmap[..]), loSt, hiSt);
      peak := if peak < |stack| then |stack| else peak;
    }
  }
}
