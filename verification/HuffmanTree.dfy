/** The tree that BZ2_hbMakeCodeLengths grows: every join takes the two lightest roots. */
module HuffmanTree {

  // ---- weights: 24 bits of frequency above 8 bits of height ----

  function Freq(x: nat): nat {
    x / 256
  }

  function Height(x: nat): nat {
    x % 256
  }

  function Max(a: int, b: int): int {
    if a > b then a else b
  }

  /** ADDWEIGHTS. The low byte of the sum is clear, so joining the height with `|` adds it. */
  function AddWeights(x: nat, y: nat): (r: nat)
    requires Height(x) < 255 && Height(y) < 255
    ensures Freq(r) == Freq(x) + Freq(y) && Height(r) == 1 + Max(Height(x), Height(y))
  {
    (x - x % 256) + (y - y % 256) + (1 + Max(Height(x), Height(y)))
  }

  /** 1, 2, 3, 5, 8, ...: the least frequency of a subtree of height `h`. */
  function Fib(h: nat): (f: nat)
    ensures f >= 1
  {
    if h == 0 then 1 else if h == 1 then 2 else Fib(h - 1) + Fib(h - 2)
  }

  lemma {:induction false} FibMonotone(a: nat, b: nat)
    requires a <= b
    ensures Fib(a) <= Fib(b)
  {
    if a < b {
      FibMonotone(a, b - 1);
    }
  }

  lemma FibValues()
    ensures Fib(13) == 610 && Fib(33) == 9227465
  {
    assert Fib(4) == 8 && Fib(5) == 13;
    assert Fib(9) == 89 && Fib(8) == 55;
    assert Fib(13) == 610 && Fib(12) == 377;
    assert Fib(17) == 4181 && Fib(16) == 2584;
    assert Fib(21) == 28657 && Fib(20) == 17711;
    assert Fib(25) == 196418 && Fib(24) == 121393;
    assert Fib(29) == 1346269 && Fib(28) == 832040;
    assert Fib(33) == 9227465;
  }

  /** A tree of height `h` needs frequency at least Fib(h). */
  lemma HeightBound(h: nat, f: nat, m: nat)
    requires Fib(h) <= f
    ensures f < 8388608 ==> h <= 32
    ensures f < Fib(m + 1) ==> h <= m
  {
    hide Fib;
    FibValues();
    if h >= 33 {
      FibMonotone(33, h);
    }
    if h >= m + 1 {
      FibMonotone(m + 1, h);
    }
  }

  // ---- the forest under construction ----

  /** Total frequency of the nodes below `k` that have no parent yet. */
  function RootSum(p: seq<int>, w: seq<int>, k: nat): nat
    requires k <= |p| == |w| && forall i :: 0 <= i < |w| ==> 0 <= w[i]
  {
    if k == 0 then 0 else RootSum(p, w, k - 1) + if p[k - 1] == -1 then Freq(w[k - 1]) else 0
  }

  /** `a` and `b` are the two children of `m`. */
  ghost predicate Siblings(p: seq<int>, w: seq<int>, a: nat, b: nat, m: nat) {
    && |p| == |w| && 1 <= a < m && 1 <= b < m < |p| && a != b && p[a] == m && p[b] == m
    && 0 <= w[a] && 0 <= w[b] && 0 <= w[m]
    && Freq(w[m]) == Freq(w[a]) + Freq(w[b]) && Height(w[m]) == 1 + Max(Height(w[a]), Height(w[b]))
    && forall k :: 0 <= k < |p| && p[k] == m ==> k == a || k == b
  }

  ghost predicate Inner(p: seq<int>, w: seq<int>, m: nat) {
    exists a, b :: Siblings(p, w, a, b, m)
  }

  /** Links go up, towards taller nodes. */
  ghost predicate Links(p: seq<int>, w: seq<int>, leaves: nat) {
    && 1 <= leaves < |p| == |w| && p[0] == -2 && w[0] == 0
    && (forall k :: 0 <= k < |w| ==> 0 <= w[k] && (k > 0 ==> Freq(w[k]) > 0))
    && (forall k :: 1 <= k < |p| ==> p[k] == -1 || (k < p[k] < |p| && leaves < p[k] && Height(w[k]) < Height(w[p[k]])))
    && (forall m :: leaves < m < |p| ==> Inner(p, w, m))
  }

  /** When two nodes were joined, no other root was lighter than either. */
  ghost predicate LightestFirst(p: seq<int>, w: seq<int>) {
    |p| == |w|
    && forall k, j :: 1 <= k < |p| && 1 <= j < p[k] && j < |p| && (p[j] == -1 || p[j] > p[k]) && p[j] != p[k] ==>
      w[k] <= w[j]
  }

  /** The unlinked nodes, and Huffman's bounds on them; `last` is the frequency extracted last. */
  ghost predicate Roots(p: seq<int>, w: seq<int>, live: set<int>, last: nat) {
    && |p| == |w|
    && (forall k :: k in live ==> 1 <= k < |p|)
    && (forall k :: 1 <= k < |p| ==> (k in live <==> p[k] == -1))
    && (forall k :: k in live ==> 0 <= w[k] && last <= Freq(w[k]) && Fib(Height(w[k])) <= Freq(w[k]))
    && (forall k :: k in live && Height(w[k]) > 0 ==> Fib(Height(w[k]) - 1) <= last)
  }

  ghost predicate Forest(p: seq<int>, w: seq<int>, leaves: nat, live: set<int>, last: nat, total: nat) {
    Links(p, w, leaves) && Roots(p, w, live, last) && LightestFirst(p, w) && RootSum(p, w, |p|) == total
  }

  lemma {:induction false} RootSumAtLeast(p: seq<int>, w: seq<int>, k: nat, i: nat)
    requires i < k <= |p| == |w| && p[i] == -1 && forall j :: 0 <= j < |w| ==> 0 <= w[j]
    ensures Freq(w[i]) <= RootSum(p, w, k)
  {
    if i < k - 1 {
      RootSumAtLeast(p, w, k - 1, i);
    }
  }

  /** Linking node `i` takes its frequency out of the sum. */
  lemma {:induction false} RootSumLink(p: seq<int>, w: seq<int>, k: nat, i: nat, m: int)
    requires i < |p| == |w| && k <= |p| && p[i] == -1 && m != -1 && forall j :: 0 <= j < |w| ==> 0 <= w[j]
    ensures RootSum(p[i := m], w, k) == RootSum(p, w, k) - if i < k then Freq(w[i]) else 0
  {
    if k > 0 {
      RootSumLink(p, w, k - 1, i, m);
    }
  }

  lemma {:induction false} RootSumExtends(p: seq<int>, w: seq<int>, k: nat, x: int, y: nat)
    requires k <= |p| == |w| && forall j :: 0 <= j < |w| ==> 0 <= w[j]
    ensures RootSum(p + [x], w + [y], k) == RootSum(p, w, k)
  {
    if k > 0 {
      RootSumExtends(p, w, k - 1, x, y);
    }
  }

  /** The parents after n1 and n2 are joined under a new node. */
  function Joined(p: seq<int>, n1: nat, n2: nat): (r: seq<int>)
    requires n1 < |p| && n2 < |p|
    ensures |r| == |p| + 1
  {
    p[n1 := |p|][n2 := |p|] + [-1]
  }

  lemma JoinSum(p: seq<int>, w: seq<int>, n1: nat, n2: nat, x: nat)
    requires |p| == |w| && n1 < |p| && n2 < |p| && n1 != n2 && p[n1] == p[n2] == -1
    requires forall j :: 0 <= j < |w| ==> 0 <= w[j]
    requires Freq(x) == Freq(w[n1]) + Freq(w[n2])
    ensures RootSum(Joined(p, n1, n2), w + [x], |p| + 1) == RootSum(p, w, |p|)
  {
    RootSumLink(p, w, |p|, n1, |p|);
    var q := p[n1 := |p|];
    RootSumLink(q, w, |p|, n2, |p|);
    RootSumExtends(q[n2 := |p|], w, |p|, -1, x);
  }

  lemma SiblingsStay(p: seq<int>, w: seq<int>, n1: nat, n2: nat, x: nat, a: nat, b: nat, m: nat)
    requires Siblings(p, w, a, b, m) && n1 < |p| && n2 < |p| && p[n1] == p[n2] == -1
    ensures Siblings(Joined(p, n1, n2), w + [x], a, b, m)
  {
    var q := Joined(p, n1, n2);
    forall k | 0 <= k < |q| && q[k] == m
      ensures k == a || k == b
    {
      assert k < |p| && p[k] == m;
    }
  }

  lemma JoinLinks(p: seq<int>, w: seq<int>, leaves: nat, n1: nat, n2: nat, x: nat)
    requires Links(p, w, leaves) && 1 <= n1 < |p| && 1 <= n2 < |p| && n1 != n2 && p[n1] == p[n2] == -1
    requires Freq(x) == Freq(w[n1]) + Freq(w[n2]) && Height(x) == 1 + Max(Height(w[n1]), Height(w[n2]))
    ensures Links(Joined(p, n1, n2), w + [x], leaves)
  {
    var q, v := Joined(p, n1, n2), w + [x];
    forall m | leaves < m < |q|
      ensures Inner(q, v, m)
    {
      if m == |p| {
        assert Siblings(q, v, n1, n2, m);
      } else {
        assert Inner(p, w, m);
        var a, b :| Siblings(p, w, a, b, m);
        SiblingsStay(p, w, n1, n2, x, a, b, m);
      }
    }
    forall k | 1 <= k < |q|
      ensures q[k] == -1 || (k < q[k] < |q| && leaves < q[k] && Height(v[k]) < Height(v[q[k]]))
    {
      assert k < |p| ==> v[k] == w[k] && (q[k] == p[k] || q[k] == |p|);
    }
  }

  lemma JoinLightestFirst(p: seq<int>, w: seq<int>, n1: nat, n2: nat, x: nat)
    requires LightestFirst(p, w) && n1 < |p| && n2 < |p| && n1 != n2 && p[n1] == p[n2] == -1
    requires forall k :: 0 <= k < |p| ==> p[k] < |p|
    requires forall k :: 1 <= k < |p| && p[k] == -1 ==> w[n1] <= w[k] && (k != n1 ==> w[n2] <= w[k])
    ensures LightestFirst(Joined(p, n1, n2), w + [x])
  {
    var q, v := Joined(p, n1, n2), w + [x];
    forall k, j | 1 <= k < |q| && 1 <= j < q[k] && j < |q| && (q[j] == -1 || q[j] > q[k]) && q[j] != q[k]
      ensures v[k] <= v[j]
    {
      assert k < |p| && j < |p|;
      assert k != n1 && k != n2 ==> q[k] == p[k];
      assert j != n1 && j != n2 ==> q[j] == p[j];
    }
  }

  /** Huffman's choice keeps the Fibonacci bound. */
  lemma JoinFib(x: nat, y: nat, last: nat, r: nat)
    requires last <= Freq(x) <= Freq(y) && Fib(Height(x)) <= Freq(x) && Fib(Height(y)) <= Freq(y)
    requires Height(x) > 0 ==> Fib(Height(x) - 1) <= last
    requires Height(y) > 0 ==> Fib(Height(y) - 1) <= last
    requires Freq(r) == Freq(x) + Freq(y) && Height(r) == 1 + Max(Height(x), Height(y))
    ensures Fib(Height(r)) <= Freq(r) && Fib(Height(r) - 1) <= Freq(y)
  {
  }

  lemma JoinRoots(p: seq<int>, w: seq<int>, live: set<int>, last: nat, n1: nat, n2: nat, x: nat)
    requires Roots(p, w, live, last) && n1 in live && n2 in live && n1 != n2
    requires forall k :: k in live ==> w[n1] <= w[k] && (k != n1 ==> w[n2] <= w[k])
    requires Freq(x) == Freq(w[n1]) + Freq(w[n2]) && Height(x) == 1 + Max(Height(w[n1]), Height(w[n2]))
    ensures Roots(Joined(p, n1, n2), w + [x], live - {n1} - {n2} + {|p|}, Freq(w[n2]))
  {
    hide Fib;
    var q, v, more := Joined(p, n1, n2), w + [x], live - {n1} - {n2} + {|p|};
    JoinFib(w[n1], w[n2], last, x);
    forall k | k in live - {n1} - {n2}
      ensures v[k] == w[k] && Freq(w[n2]) <= Freq(w[k]) && last <= Freq(w[n2])
    {
    }
    forall k | 1 <= k < |q|
      ensures k in more <==> q[k] == -1
    {
      assert k < |p| && k != n1 && k != n2 ==> q[k] == p[k];
    }
  }

  lemma RootWeight(p: seq<int>, w: seq<int>, leaves: nat, live: set<int>, last: nat, total: nat, k: int, m: nat)
    requires Forest(p, w, leaves, live, last, total) && k in live
    ensures 1 <= k < |p| && Freq(w[k]) <= total && (total < 8388608 ==> Height(w[k]) <= 32)
    ensures total < Fib(m + 1) ==> Height(w[k]) <= m
  {
    RootSumAtLeast(p, w, |p|, k);
    HeightBound(Height(w[k]), Freq(w[k]), m);
  }

  // ---- the finished tree ----

  ghost predicate Upward(p: seq<int>) {
    forall k :: 0 <= k < |p| ==> p[k] < 0 || k < p[k] < |p|
  }

  /** How many links lead from node `k` to a root. */
  function Depth(p: seq<int>, k: nat): nat
    requires Upward(p) && k < |p|
    decreases |p| - k
  {
    if p[k] < 0 then 0 else 1 + Depth(p, p[k])
  }

  /** Every link climbs at least one unit of height. */
  lemma {:induction false} DepthWithinHeight(p: seq<int>, w: seq<int>, leaves: nat, h: nat, k: nat)
    requires Links(p, w, leaves) && Upward(p) && 1 <= k < |p|
    requires forall r :: 1 <= r < |p| && p[r] == -1 ==> Height(w[r]) <= h
    ensures Height(w[k]) + Depth(p, k) <= h
    decreases |p| - k
  {
    if p[k] != -1 {
      DepthWithinHeight(p, w, leaves, h, p[k]);
    }
  }

  lemma {:induction false} DeepestAreLeaves(p: seq<int>, w: seq<int>, top: nat, leaves: nat, m: nat)
    requires Links(p, w, leaves) && Upward(p) && 1 <= m < |p|
    requires forall k :: 1 <= k <= leaves ==> Depth(p, k) <= top
    ensures Depth(p, m) <= top
  {
    if m > leaves {
      assert Inner(p, w, m);
      var a, b :| Siblings(p, w, a, b, m);
      DeepestAreLeaves(p, w, top, leaves, a);
    }
  }

  // ---- the leaves ----

  /** Leaf weights: a positive frequency, height zero; entry 0 is the sentinel. */
  ghost predicate LeafWeights(w: seq<int>) {
    |w| > 0 && w[0] == 0 && forall k :: 1 <= k < |w| ==> 256 <= w[k] && w[k] % 256 == 0
  }

  function LeafSum(w: seq<int>): nat
    requires forall k :: 0 <= k < |w| ==> 0 <= w[k]
  {
    if w == [] then 0 else LeafSum(w[..|w| - 1]) + Freq(w[|w| - 1])
  }

  /** The parents before anything is joined. */
  function Unjoined(n: nat): (p: seq<int>)
    ensures |p| == n + 1
  {
    [-2] + seq(n, _ => -1)
  }

  ghost function Leaves(n: nat): (s: set<int>)
    ensures forall k :: k in s <==> 1 <= k <= n
  {
    if n == 0 then {} else Leaves(n - 1) + {n}
  }

  lemma {:induction false} UnjoinedSum(w: seq<int>, n: nat, k: nat)
    requires LeafWeights(w) && |w| == n + 1 && k <= n + 1
    ensures RootSum(Unjoined(n), w, k) == LeafSum(w[..k])
  {
    if k > 0 {
      UnjoinedSum(w, n, k - 1);
      assert w[..k][..k - 1] == w[..k - 1];
    }
  }

  lemma FibZero()
    ensures Fib(0) == 1
  {
  }

  lemma StartForest(w: seq<int>, n: nat)
    requires LeafWeights(w) && |w| == n + 1 && n >= 1
    ensures Forest(Unjoined(n), w, n, Leaves(n), 0, LeafSum(w))
  {
    hide Fib, RootSum, LeafSum;
    assert Fib(0) == 1 by {
      FibZero();
    }
    UnjoinedSum(w, n, n + 1);
    assert w[..n + 1] == w;
    assert Roots(Unjoined(n), w, Leaves(n), 0);
  }

  lemma ForestShape(p: seq<int>, w: seq<int>, leaves: nat, live: set<int>, last: nat, total: nat)
    requires Forest(p, w, leaves, live, last, total)
    ensures |p| == |w| && w[0] == 0 && (forall k :: k in live ==> 1 <= k < |p| && p[k] == -1 && 0 <= w[k])
    ensures (forall k :: 0 <= k < |p| ==> 0 <= w[k] && p[k] < |p|) && |p| !in live
    ensures forall k :: 1 <= k < |p| && p[k] == -1 ==> k in live
  {
  }

  /** The forest after the two lightest roots are joined. */
  lemma JoinForest(p: seq<int>, w: seq<int>, leaves: nat, live: set<int>, last: nat, total: nat, n1: nat, n2: nat)
    requires Forest(p, w, leaves, live, last, total) && n1 in live && n2 in live && n1 != n2 && total < 8388608
    requires forall k :: k in live ==> 1 <= k < |w| && w[n1] <= w[k] && (k != n1 ==> w[n2] <= w[k])
    ensures 0 <= w[n1] && 0 <= w[n2] && Height(w[n1]) <= 32 && Height(w[n2]) <= 32
    ensures Forest(Joined(p, n1, n2), w + [AddWeights(w[n1], w[n2])], leaves, live - {n1} - {n2} + {|p|}, Freq(w[n2]),
        total)
  {
    hide RootSum, Fib, Links, Roots, LightestFirst;
    ForestShape(p, w, leaves, live, last, total);
    RootWeight(p, w, leaves, live, last, total, n1, 0);
    RootWeight(p, w, leaves, live, last, total, n2, 0);
    var x := AddWeights(w[n1], w[n2]);
    JoinSum(p, w, n1, n2, x);
    JoinLinks(p, w, leaves, n1, n2, x);
    JoinRoots(p, w, live, last, n1, n2, x);
    JoinLightestFirst(p, w, n1, n2, x);
  }

  /** The whole tree, at the end of the join loop. */
  ghost predicate Tree(p: seq<int>, w: seq<int>, leaves: nat, last: nat, total: nat) {
    Forest(p, w, leaves, {|p| - 1}, last, total)
  }
  /** No leaf of a Huffman tree lies deeper than Fibonacci allows. */
  lemma TreeDepths(p: seq<int>, w: seq<int>, leaves: nat, last: nat, total: nat, k: nat, m: nat)
    requires Tree(p, w, leaves, last, total) && Upward(p) && 1 <= k < |p| && total < 8388608
    ensures Depth(p, k) <= 32 && (total < Fib(m + 1) ==> Depth(p, k) <= m)
  {
    RootWeight(p, w, leaves, {|p| - 1}, last, total, |p| - 1, m);
    DepthWithinHeight(p, w, leaves, Height(w[|p| - 1]), k);
  }

  lemma TreeUpward(p: seq<int>, w: seq<int>, leaves: nat, last: nat, total: nat)
    requires Tree(p, w, leaves, last, total)
    ensures Upward(p) && |p| > leaves && p[0] == -2
  {
  }
}
