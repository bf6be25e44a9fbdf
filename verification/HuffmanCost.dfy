/** No prefix code spends fewer bits than the finished tree, and none that spends as few is shallower. */
module HuffmanCost {
  import opened Base
  import opened OptimalCode
  import opened HuffmanTree

  // ---- the nodes of a cut across the tree ----

  /** The finished tree: one root, at the end. */
  ghost predicate Whole(p: seq<int>, w: seq<int>, leaves: nat) {
    && Links(p, w, leaves) && LightestFirst(p, w) && Upward(p)
    && p[|p| - 1] == -1 && forall k :: 1 <= k < |p| - 1 ==> p[k] != -1
  }

  /** After the joins up to node `m`, node `i` is a root. */
  predicate RootAt(p: seq<int>, m: nat, i: nat) {
    1 <= i <= m && i < |p| && (p[i] < 0 || p[i] > m)
  }

  /** The depths of those roots in the finished tree. */
  function DepthsAt(p: seq<int>, m: nat): (l: seq<int>)
    requires Upward(p)
    ensures |l| == |p|
  {
    seq(|p|, i requires 0 <= i < |p| => if RootAt(p, m, i) then Depth(p, i) else -1)
  }

  ghost predicate Covers(p: seq<int>, m: nat, l: seq<int>) {
    |l| == |p| && forall i :: 0 <= i < |p| ==> (l[i] >= 0 <==> RootAt(p, m, i))
  }

  function ItemsOf(w: seq<int>): (it: Items)
    requires forall k :: 0 <= k < |w| ==> 0 <= w[k]
    ensures |it.freq| == |it.height| == |w|
    ensures forall k :: 0 <= k < |w| ==> it.freq[k] == Freq(w[k]) && it.height[k] == Height(w[k])
  {
    Items(seq(|w|, k requires 0 <= k < |w| => Freq(w[k])), seq(|w|, k requires 0 <= k < |w| => Height(w[k])))
  }

  lemma CutFits(p: seq<int>, w: seq<int>, leaves: nat, m: nat, l: seq<int>)
    requires Whole(p, w, leaves) && Covers(p, m, l)
    ensures Fits(ItemsOf(w), l)
  {
  }

  /** At the join that made node `n`, its children are the two lightest roots. */
  lemma ChildrenLightest(p: seq<int>, w: seq<int>, leaves: nat, n: nat, a: nat, b: nat, l: seq<int>)
    requires Whole(p, w, leaves) && leaves < n < |p| && Siblings(p, w, a, b, n) && Covers(p, n - 1, l)
    ensures Fits(ItemsOf(w), l) && Lightest(ItemsOf(w), l, a, b) && l[n] < 0 && JoinsTo(ItemsOf(w), a, b, n)
  {
    CutFits(p, w, leaves, n - 1, l);
    forall j | 0 <= j < |l| && l[j] >= 0 && j != a && j != b
      ensures w[a] <= w[j] && w[b] <= w[j]
    {
      assert RootAt(p, n - 1, j);
    }
  }

  /** Lowering the cut below node `n` puts its children in its place. */
  lemma CutBelow(p: seq<int>, w: seq<int>, leaves: nat, n: nat, a: nat, b: nat)
    requires Whole(p, w, leaves) && leaves < n < |p| && Siblings(p, w, a, b, n)
    ensures a < |p| && b < |p| && DepthsAt(p, n) == Paired(DepthsAt(p, n - 1), a, b, n, Depth(p, n))
    ensures Covers(p, n, DepthsAt(p, n)) && Covers(p, n - 1, DepthsAt(p, n - 1))
    ensures DepthsAt(p, n - 1)[a] == DepthsAt(p, n - 1)[b] == 1 + Depth(p, n)
  {
    hide Depth;
    ChildDepth(p, a);
    ChildDepth(p, b);
    forall i | 0 <= i < |p| && i != a && i != b && i != n
      ensures RootAt(p, n, i) <==> RootAt(p, n - 1, i)
    {
    }
  }

  lemma ChildDepth(p: seq<int>, a: nat)
    requires Upward(p) && a < |p| && p[a] >= 0
    ensures Depth(p, a) == 1 + Depth(p, p[a])
  {
  }

  lemma PairedCovers(p: seq<int>, w: seq<int>, leaves: nat, n: nat, a: nat, b: nat, l: seq<int>, r: seq<int>, x: nat)
    requires Whole(p, w, leaves) && leaves < n < |p| && Siblings(p, w, a, b, n)
    requires Covers(p, n - 1, l) && SameItems(l, r)
    ensures |r| == |p| && Covers(p, n, Paired(r, a, b, n, x))
  {
  }

  // ---- the cost of a cut ----

  lemma {:induction false} CostNothing(f: seq<nat>, l: seq<int>)
    requires |f| == |l| && forall i :: 0 <= i < |l| ==> l[i] < 0
    ensures TotalBits(f, l) == 0
  {
    if l != [] {
      CostNothing(f[..|l| - 1], l[..|l| - 1]);
    }
  }

  lemma {:induction false} KraftNothing(l: seq<int>, top: nat)
    requires forall i :: 0 <= i < |l| ==> l[i] < 0
    ensures KraftSum(l, top) == 0
  {
    if l != [] {
      KraftNothing(l[..|l| - 1], top);
    }
  }

  lemma RootOnly(p: seq<int>, w: seq<int>, leaves: nat, l: seq<int>)
    requires Whole(p, w, leaves) && Covers(p, |p| - 1, l)
    ensures |p| > 1 && l[|p| - 1] >= 0 && forall i :: 0 <= i < |l| && i != |p| - 1 ==> l[i] < 0
  {
    assert RootAt(p, |p| - 1, |p| - 1);
  }

  lemma DepthsCover(p: seq<int>, m: nat)
    requires Upward(p)
    ensures Covers(p, m, DepthsAt(p, m))
  {
  }

  lemma RootBest(p: seq<int>, w: seq<int>, leaves: nat, l: seq<int>, t: nat)
    requires Whole(p, w, leaves) && Covers(p, |p| - 1, l)
    ensures Fits(ItemsOf(w), DepthsAt(p, |p| - 1)) && Fits(ItemsOf(w), l)
    ensures NoWorse(ItemsOf(w), DepthsAt(p, |p| - 1), l, t)
  {
    hide LightestFirst, TotalBits;
    var m := |p| - 1;
    var d, f := DepthsAt(p, m), ItemsOf(w).freq;
    DepthsCover(p, m);
    RootOnly(p, w, leaves, d);
    RootOnly(p, w, leaves, l);
    CutFits(p, w, leaves, m, d);
    CutFits(p, w, leaves, m, l);
    CostUpdate(f, d, m, -1);
    CostNothing(f, d[m := -1]);
    CostUpdate(f, l, m, -1);
    CostNothing(f, l[m := -1]);
    PositiveProduct(f[m], l[m]);
  }

  lemma PositiveProduct(f: nat, x: nat)
    requires f > 0
    ensures f * x == 0 <==> x == 0
  {
  }

  lemma Children(p: seq<int>, w: seq<int>, leaves: nat, n: nat) returns (a: nat, b: nat)
    requires Whole(p, w, leaves) && leaves < n < |p|
    ensures Siblings(p, w, a, b, n) && 1 <= a < n && 1 <= b < n && a != b
  {
    assert Inner(p, w, n);
    a, b :| Siblings(p, w, a, b, n);
  }

  /** If joining saves both codes the same, the better one stays the better one. */
  lemma SameSaving(it: Items, d: seq<int>, e: seq<int>, r: seq<int>, q: seq<int>, saved: nat, t: nat)
    requires Fits(it, d) && Fits(it, e) && Fits(it, r) && Fits(it, q)
    requires TotalBits(it.freq, d) == TotalBits(it.freq, e) + saved
    requires StaysWithin(it, d, t) <==> StaysWithin(it, e, t)
    requires TotalBits(it.freq, r) == TotalBits(it.freq, q) + saved
    requires StaysWithin(it, r, t) <==> StaysWithin(it, q, t)
    requires NoWorse(it, e, q, t)
    ensures NoWorse(it, d, r, t)
  {
  }

  /** Huffman's theorem, from the root down: the depths of any cut beat all other lengths for its nodes. */
  lemma {:induction false} CutIsBest(p: seq<int>, w: seq<int>, leaves: nat, m: nat, l: seq<int>, top: nat, t: nat)
    requires Whole(p, w, leaves) && leaves <= m < |p| && |w| == |p| && Covers(p, m, l) && Admits(l, top)
    ensures Fits(ItemsOf(w), DepthsAt(p, m)) && Fits(ItemsOf(w), l) && NoWorse(ItemsOf(w), DepthsAt(p, m), l, t)
    decreases |p| - m
  {
    hide TotalBits, Admits, StaysWithin, Depth, Siblings, Links, LightestFirst, Covers, NoWorse, Fits, DepthsAt;
    hide RootAt, Lightest;
    if m == |p| - 1 {
      RootBest(p, w, leaves, l, t);
    } else {
      var n := m + 1;
      var a, b := Children(p, w, leaves, n);
      ChildrenLightest(p, w, leaves, n, a, b, l);
      var r, q, depth := JoinStep(ItemsOf(w), l, top, a, b, n, t);
      PairedCovers(p, w, leaves, n, a, b, l, r, depth - 1);
      CutIsBest(p, w, leaves, n, q, depth, t);
      CutBelow(p, w, leaves, n, a, b);
      var d := DepthsAt(p, m);
      ChildrenLightest(p, w, leaves, n, a, b, d);
      PairCost(ItemsOf(w), d, a, b, n, 1 + Depth(p, n), t);
      SameSaving(ItemsOf(w), d, DepthsAt(p, n), r, q, ItemsOf(w).freq[a] + ItemsOf(w).freq[b], t);
      NoWorseAll(ItemsOf(w), d, r, l, t);
    }
  }

  /** The depths of any cut fill the code space. */
  lemma {:induction false} CutIsFull(p: seq<int>, w: seq<int>, leaves: nat, m: nat, top: nat)
    requires Whole(p, w, leaves) && leaves <= m < |p| && |w| == |p| && forall k :: 1 <= k < |p| ==> Depth(p, k) <= top
    ensures KraftSum(DepthsAt(p, m), top) == Pow2(top)
    decreases |p| - m
  {
    hide KraftSum, Depth, Siblings, Links, LightestFirst;
    var d := DepthsAt(p, m);
    if m == |p| - 1 {
      DepthsCover(p, m);
      RootOnly(p, w, leaves, d);
      KraftUpdate(d, m, -1, top);
      KraftNothing(d[m := -1], top);
      assert Depth(p, m) == 0 by { RootDepth(p, m); }
    } else {
      var n := m + 1;
      var a, b := Children(p, w, leaves, n);
      CutIsFull(p, w, leaves, n, top);
      CutBelow(p, w, leaves, n, a, b);
      PairShares(d, a, b, n, Depth(p, n), top);
    }
  }

  lemma RootDepth(p: seq<int>, m: nat)
    requires Upward(p) && m < |p| && p[m] < 0
    ensures Depth(p, m) == 0
  {
  }

  lemma PairShares(d: seq<int>, a: nat, b: nat, n: nat, x: nat, top: nat)
    requires a < |d| && b < |d| && n < |d| && a != b && a != n && b != n && d[n] < 0 && d[a] == d[b] == 1 + x <= top
    ensures KraftSum(d, top) == KraftSum(Paired(d, a, b, n, x), top)
  {
    hide KraftSum;
    KraftUpdate(d, a, -1, top);
    KraftUpdate(d[a := -1], b, -1, top);
    KraftUpdate(d[a := -1][b := -1], n, x, top);
    assert Pow2(top - x) == 2 * Pow2(top - x - 1);
  }

  // ---- the leaves ----

  function None(n: nat): (l: seq<int>)
    ensures |l| == n && forall i :: 0 <= i < n ==> l[i] == -1
  {
    seq(n, _ => -1)
  }

  lemma {:induction false} TailFree(f: seq<nat>, l: seq<int>, n: nat, top: nat)
    requires |f| == |l| + n
    ensures TotalBits(f, l + None(n)) == TotalBits(f[..|l|], l) && KraftSum(l + None(n), top) == KraftSum(l, top)
  {
    if n == 0 {
      assert l + None(0) == l && f[..|l|] == f;
    } else {
      TailFree(f[..|f| - 1], l, n - 1, top);
      assert (l + None(n))[..|l| + n - 1] == l + None(n - 1);
      assert f[..|f| - 1][..|l|] == f[..|l|];
    }
  }

  lemma {:induction false} FrontFree(f: seq<nat>, l: seq<int>, top: nat)
    requires |f| == |l| + 1
    ensures TotalBits(f, [-1] + l) == TotalBits(f[1..], l) && KraftSum([-1] + l, top) == KraftSum(l, top)
  {
    if l == [] {
      assert [-1] + l == [-1];
      assert TotalBits(f, [-1]) == TotalBits(f[..0], []) + BitsSpent(f[0], -1);
      assert KraftSum([-1], top) == KraftSum([], top) + Share(-1, top);
    } else {
      var k := |l| - 1;
      FrontFree(f[..|l|], l[..k], top);
      assert ([-1] + l)[..|l|] == [-1] + l[..k];
      assert f[..|l|][1..] == f[1..][..k];
    }
  }

  /** Lengths for the symbols as lengths for the nodes. */
  function OfLeaves(l: seq<int>, size: nat): (r: seq<int>)
    requires |l| < size
    ensures |r| == size && forall i :: 0 <= i < size ==> r[i] == if 1 <= i <= |l| then l[i - 1] else -1
  {
    [-1] + l + None(size - 1 - |l|)
  }

  function LeafFreqs(w: seq<int>, leaves: nat): (f: seq<nat>)
    requires leaves < |w| && forall k :: 0 <= k < |w| ==> 0 <= w[k]
    ensures |f| == leaves && forall i :: 0 <= i < leaves ==> f[i] == Freq(w[i + 1])
  {
    seq(leaves, i requires 0 <= i < leaves => Freq(w[i + 1]))
  }

  lemma LeavesOnly(w: seq<int>, l: seq<int>, top: nat)
    requires |l| < |w| && forall k :: 0 <= k < |w| ==> 0 <= w[k]
    ensures TotalBits(ItemsOf(w).freq, OfLeaves(l, |w|)) == TotalBits(LeafFreqs(w, |l|), l)
    ensures KraftSum(OfLeaves(l, |w|), top) == KraftSum(l, top)
  {
    hide TotalBits, KraftSum;
    var f := ItemsOf(w).freq;
    TailFree(f, [-1] + l, |w| - 1 - |l|, top);
    FrontFree(f[..|l| + 1], l, top);
    assert f[..|l| + 1][1..] == LeafFreqs(w, |l|);
  }

  ghost predicate LeafDepths(p: seq<int>, len: seq<int>)
    requires Upward(p)
  {
    |len| < |p| && forall i :: 0 <= i < |len| ==> len[i] == Depth(p, i + 1)
  }

  lemma LeavesCover(p: seq<int>, w: seq<int>, leaves: nat, l: seq<int>)
    requires Whole(p, w, leaves) && |l| == leaves && forall i :: 0 <= i < |l| ==> l[i] >= 0
    ensures |w| == |p| && Covers(p, leaves, OfLeaves(l, |p|))
    ensures LeafDepths(p, l) ==> OfLeaves(l, |p|) == DepthsAt(p, leaves)
  {
    hide Depth, LightestFirst;
    forall i | 0 <= i < |p|
      ensures RootAt(p, leaves, i) <==> 1 <= i <= leaves
    {
    }
  }

  ghost predicate FlatLeaves(w: seq<int>, leaves: nat) {
    leaves < |w| && forall k :: 1 <= k <= leaves ==> 0 <= w[k] && Height(w[k]) == 0
  }

  /** Against one other code: the tree spends fewer bits, or as many and is no deeper. */
  lemma TreeBeats(p: seq<int>, w: seq<int>, leaves: nat, len: seq<int>, other: seq<int>, top: nat, t: nat)
    requires Whole(p, w, leaves) && |len| == leaves && LeafDepths(p, len) && FlatLeaves(w, leaves)
    requires |other| == leaves && Admits(other, top) && forall i :: 0 <= i < |other| ==> other[i] >= 0
    ensures TotalBits(LeafFreqs(w, leaves), len) <= TotalBits(LeafFreqs(w, leaves), other)
    ensures TotalBits(LeafFreqs(w, leaves), len) == TotalBits(LeafFreqs(w, leaves), other) && Shallow(other, t) ==>
      Shallow(len, t)
  {
    hide TotalBits, KraftSum, Depth, LightestFirst, DepthsAt;
    LeavesCover(p, w, leaves, len);
    LeavesCover(p, w, leaves, other);
    LeavesOnly(w, len, top);
    LeavesOnly(w, other, top);
    var l, o := OfLeaves(len, |p|), OfLeaves(other, |p|);
    CutIsBest(p, w, leaves, leaves, o, top, t);
    if Shallow(other, t) {
      forall i | 0 <= i < |o| && o[i] >= 0
        ensures o[i] + ItemsOf(w).height[i] <= t
      {
        assert other[i - 1] <= t;
      }
      if StaysWithin(ItemsOf(w), l, t) {
        forall i | 0 <= i < |len|
          ensures len[i] <= t
        {
          assert l[i + 1] == len[i];
        }
      }
    }
  }

  /** The tree's lengths are a code, and fill the code space. */
  lemma TreeAdmits(p: seq<int>, w: seq<int>, leaves: nat, len: seq<int>, top: nat)
    requires Whole(p, w, leaves) && |len| == leaves && LeafDepths(p, len) && Shallow(len, top)
    ensures Admits(len, top) && KraftSum(len, top) == Pow2(top) && PrefixLengths(len, leaves)
  {
    hide TotalBits, KraftSum, Depth, LightestFirst, DepthsAt;
    forall k | 1 <= k <= leaves
      ensures Depth(p, k) <= top
    {
      assert len[k - 1] <= top;
    }
    forall k | 1 <= k < |p|
      ensures Depth(p, k) <= top
    {
      DeepestAreLeaves(p, w, top, leaves, k);
    }
    CutIsFull(p, w, leaves, leaves, top);
    LeavesCover(p, w, leaves, len);
    LeavesOnly(w, len, top);
  }

  lemma WeightsCount(p: seq<int>, w: seq<int>, leaves: nat)
    requires Whole(p, w, leaves)
    ensures leaves < |w| && forall k :: 0 <= k < |w| ==> 0 <= w[k]
  {
  }

  /** The tree's lengths are optimal, and no optimal code is shallower. */
  lemma TreeIsOptimal(p: seq<int>, w: seq<int>, leaves: nat, len: seq<int>, top: nat, t: nat)
    requires Whole(p, w, leaves) && |len| == leaves && LeafDepths(p, len) && FlatLeaves(w, leaves) && Shallow(len, top)
    ensures Optimal(LeafFreqs(w, leaves), len)
    ensures OptimalWithin(LeafFreqs(w, leaves), t) <==> Shallow(len, t)
  {
    hide TotalBits, KraftSum, LeafDepths, FlatLeaves, Admits, Links, LightestFirst;
    WeightsCount(p, w, leaves);
    var f := LeafFreqs(w, leaves);
    TreeAdmits(p, w, leaves, len, top);
    forall o | PrefixLengths(o, |f|)
      ensures TotalBits(f, len) <= TotalBits(f, o)
    {
      var top' :| Admits(o, top');
      TreeBeats(p, w, leaves, len, o, top', t);
    }
    if OptimalWithin(f, t) {
      var o :| Optimal(f, o) && Shallow(o, t);
      var top' :| Admits(o, top');
      TreeBeats(p, w, leaves, len, o, top', t);
    }
  }

  // ---- every table of frequencies has such a tree ----

  lemma TreeIsWhole(p: seq<int>, w: seq<int>, leaves: nat, last: nat, total: nat)
    requires Tree(p, w, leaves, last, total)
    ensures Whole(p, w, leaves)
  {
  }

  /** The lightest root but for `skip`. */
  lemma LightestRoot(p: seq<int>, w: seq<int>, skip: int, r: nat) returns (n: nat)
    requires 1 <= r < |p| == |w| && p[r] == -1 && r != skip
    ensures 1 <= n < |p| && p[n] == -1 && n != skip
    ensures forall k :: 1 <= k < |p| && p[k] == -1 && k != skip ==> w[n] <= w[k]
  {
    n := r;
    var i := 1;
    while i < |p|
      invariant 1 <= i <= |p| && 1 <= n < |p| && p[n] == -1 && n != skip
      invariant forall k :: 1 <= k < i && p[k] == -1 && k != skip ==> w[n] <= w[k]
    {
      if p[i] == -1 && i != skip && w[i] < w[n] {
        n := i;
      }
      i := i + 1;
    }
  }

  lemma OneLeft(p: seq<int>, w: seq<int>, leaves: nat, live: set<int>, last: nat, total: nat)
    requires Forest(p, w, leaves, live, last, total) && |p| - 1 in live
    requires forall k :: 1 <= k < |p| - 1 ==> p[k] != -1
    ensures Tree(p, w, leaves, last, total)
  {
    hide Links, LightestFirst, RootSum, Fib;
  }

  /** Joining the two lightest roots until one is left. */
  lemma {:induction false} Grow(p: seq<int>, w: seq<int>, leaves: nat, live: set<int>, last: nat, total: nat)
    returns (q: seq<int>, v: seq<int>, last': nat)
    requires Forest(p, w, leaves, live, last, total) && total < 8388608 && |p| - 1 in live
    ensures Tree(q, v, leaves, last', total) && |w| <= |v| && v[..|w|] == w
    decreases |live|
  {
    hide Forest, Tree;
    ForestShape(p, w, leaves, live, last, total);
    if r: nat :| 1 <= r < |p| - 1 && p[r] == -1 {
      var n1 := LightestRoot(p, w, 0, r);
      var n2 := LightestRoot(p, w, n1, if n1 == r then |p| - 1 else r);
      JoinForest(p, w, leaves, live, last, total, n1, n2);
      var more := live - {n1} - {n2} + {|p|};
      assert |more| == |live| - 1;
      q, v, last' := Grow(Joined(p, n1, n2), w + [AddWeights(w[n1], w[n2])], leaves, more, Freq(w[n2]), total);
      assert v[..|w|] == v[..|w| + 1][..|w|];
    } else {
      OneLeft(p, w, leaves, live, last, total);
      q, v, last' := p, w, last;
    }
  }

  /** Frequencies with a total below a Fibonacci number have an optimal code of that depth. */
  lemma SmallTotal(w: seq<int>, n: nat, top: nat)
    requires LeafWeights(w) && |w| == n + 1 && n >= 1 && LeafSum(w) < 8388608 && LeafSum(w) < Fib(top + 1)
    ensures OptimalWithin(LeafFreqs(w, n), top)
  {
    hide Fib, LeafSum, Forest, Tree, Depth, Whole, Optimal;
    StartForest(w, n);
    var p, v, last := Grow(Unjoined(n), w, n, Leaves(n), 0, LeafSum(w));
    TreeIsWhole(p, v, n, last, LeafSum(w));
    TreeUpward(p, v, n, last, LeafSum(w));
    var len := seq(n, i requires 0 <= i < n => Depth(p, i + 1));
    forall i | 0 <= i < n
      ensures len[i] <= top
    {
      TreeDepths(p, v, n, last, LeafSum(w), i + 1, top);
    }
    assert forall k :: 1 <= k <= n ==> v[..|w|][k] == w[k];
    WeightsCount(p, v, n);
    assert LeafFreqs(v, n) == LeafFreqs(w, n);
    TreeIsOptimal(p, v, n, len, top, top);
  }
}
