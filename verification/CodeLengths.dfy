/** BZ2_hbMakeCodeLengths of huffman.c: Huffman code lengths, rescaled until short enough. */
module CodeLengths {
  import opened Base
  import opened WeightHeap
  import opened CanonicalCode
  import opened OptimalCode
  import opened HuffmanTree
  import opened HuffmanCost

  const NODES := 2 * MAX_ALPHA

  // ---- the frequencies that are coded ----

  /** A symbol that does not occur counts as one that occurs once. */
  function Positives(freq: seq<int>): (f: seq<nat>)
    requires forall i :: 0 <= i < |freq| ==> 0 <= freq[i]
    ensures |f| == |freq| && forall i :: 0 <= i < |f| ==> f[i] > 0
  {
    seq(|freq|, i requires 0 <= i < |freq| => if freq[i] == 0 then 1 else freq[i])
  }

  function Halve(f: seq<nat>): (h: seq<nat>)
    ensures |h| == |f| && forall i :: 0 <= i < |h| ==> h[i] > 0
  {
    seq(|f|, i requires 0 <= i < |f| => 1 + f[i] / 2)
  }

  /** The frequencies after `k` rescalings. */
  function Halvings(f: seq<nat>, k: nat): (h: seq<nat>)
    ensures |h| == |f|
  {
    if k == 0 then f else Halve(Halvings(f, k - 1))
  }

  function Sum(f: seq<nat>): nat {
    if f == [] then 0 else Sum(f[..|f| - 1]) + f[|f| - 1]
  }

  /** `k` is the first number of rescalings after which some optimal code is short enough. */
  ghost predicate ShortAfter(f: seq<nat>, k: nat, maxLen: nat) {
    OptimalWithin(Halvings(f, k), maxLen) && forall j: nat :: j < k ==> !OptimalWithin(Halvings(f, j), maxLen)
  }

  /** Rescaling leads to an optimal code that is short enough. */
  ghost predicate RescalingEnds(f: seq<nat>, maxLen: nat) {
    exists k :: OptimalWithin(Halvings(f, k), maxLen)
  }

  /** Lengths that are optimal for the frequencies, rescaled no more often than it takes to be short enough. */
  ghost predicate Measured(len: seq<int>, f: seq<nat>, maxLen: nat) {
    exists k :: ShortAfter(f, k, maxLen) && Optimal(Halvings(f, k), len)
  }

  /** Without rescaling, where that is short enough. */
  lemma MeasuredAtOnce(len: seq<int>, f: seq<nat>, maxLen: nat)
    requires Measured(len, f, maxLen) && OptimalWithin(f, maxLen)
    ensures Optimal(f, len)
  {
    var k :| ShortAfter(f, k, maxLen) && Optimal(Halvings(f, k), len);
    assert Halvings(f, 0) == f;
  }

  // ---- weights in the array ----

  /** Every frequency is shifted up by the eight bits of the height. */
  ghost predicate Loaded(w: seq<int>, f: seq<nat>) {
    |w| == |f| + 1 && w[0] == 0 && forall i :: 0 <= i < |f| ==> w[i + 1] == f[i] * 256
  }

  lemma {:induction false} LoadedSum(w: seq<int>, f: seq<nat>)
    requires Loaded(w, f) && forall i :: 0 <= i < |f| ==> f[i] > 0
    ensures LeafWeights(w) && LeafSum(w) == Sum(f) && LeafFreqs(w, |f|) == f
  {
    assert forall k :: 1 <= k < |w| ==> w[k] == f[k - 1] * 256;
    if f != [] {
      LoadedSum(w[..|f|], f[..|f| - 1]);
    } else {
      assert w == [0] && w[..0] == [];
      assert LeafSum(w) == LeafSum(w[..0]) + Freq(0);
    }
  }

  method LoadWeights(weight: array<int>, freq: seq<int>)
    requires |freq| < weight.Length && forall i :: 0 <= i < |freq| ==> 0 <= freq[i]
    modifies weight
    ensures Loaded(weight[..|freq| + 1], Positives(freq))
  {
    weight[0] := 0;
    var i := 0;
    while i < |freq|
      invariant 0 <= i <= |freq| && weight[0] == 0
      invariant forall k :: 0 <= k < i ==> weight[k + 1] == Positives(freq)[k] * 256
    {
      weight[i + 1] := (if freq[i] == 0 then 1 else freq[i]) * 256;
      i := i + 1;
    }
  }

  method Rescale(weight: array<int>, ghost f: seq<nat>, alphaSize: nat)
    requires alphaSize == |f| < weight.Length && Loaded(weight[..alphaSize + 1], f)
    modifies weight
    ensures Loaded(weight[..alphaSize + 1], Halve(f))
  {
    ghost var w := weight[..alphaSize + 1];
    assert forall k :: 0 <= k < alphaSize ==> w[k + 1] == f[k] * 256;
    var i := 1;
    while i <= alphaSize
      invariant 1 <= i <= alphaSize + 1 && weight[0] == 0
      invariant forall k :: i <= k <= alphaSize ==> weight[k] == f[k - 1] * 256
      invariant forall k :: 1 <= k < i ==> weight[k] == Halve(f)[k - 1] * 256
    {
      var j := weight[i] / 256;
      j := 1 + j / 2;
      weight[i] := j * 256;
      i := i + 1;
    }
  }

  /** Rescaling lowers the total while some symbol outweighs two. */
  lemma {:induction false} RescaleShrinks(f: seq<nat>)
    requires forall i :: 0 <= i < |f| ==> f[i] > 0
    ensures Sum(Halve(f)) <= Sum(f) && (Sum(f) > 2 * |f| ==> Sum(Halve(f)) < Sum(f))
  {
    if f != [] {
      RescaleShrinks(f[..|f| - 1]);
      assert Halve(f)[..|f| - 1] == Halve(f[..|f| - 1]);
    }
  }

  lemma {:induction false} HalvedAgain(f: seq<nat>, k: nat)
    ensures Halvings(Halve(f), k) == Halvings(f, k + 1)
  {
    if k > 0 {
      HalvedAgain(f, k - 1);
    }
  }

  function Weights(f: seq<nat>): (w: seq<int>)
    ensures |w| == |f| + 1
  {
    [0] + seq(|f|, i requires 0 <= i < |f| => f[i] * 256)
  }

  /** A limit that lets twos in every leaf pass is reached for all frequencies. */
  lemma {:induction false} EndsSoon(f: seq<nat>, maxLen: nat)
    requires |f| >= 1 && 2 * |f| < Fib(maxLen + 1) && Sum(f) < 8388608 && forall i :: 0 <= i < |f| ==> f[i] > 0
    ensures RescalingEnds(f, maxLen)
    decreases Sum(f)
  {
    hide Fib, Sum, Optimal;
    if Sum(f) < Fib(maxLen + 1) {
      LoadedSum(Weights(f), f);
      SmallTotal(Weights(f), |f|, maxLen);
      assert Halvings(f, 0) == f;
    } else {
      RescaleShrinks(f);
      EndsSoon(Halve(f), maxLen);
      var k :| OptimalWithin(Halvings(Halve(f), k), maxLen);
      HalvedAgain(f, k);
    }
  }

  // ---- the heap and the tree in their arrays ----

  lemma LeafWeightsNodes(w: seq<int>)
    requires LeafWeights(w)
    ensures Heap([0], w) && Lists([0], {})
  {
    assert multiset([0]) == multiset({} + {0});
  }

  lemma UnjoinedPush(n: nat)
    ensures Unjoined(n) + [-1] == Unjoined(n + 1) && Unjoined(0) == [-2]
  {
  }

  method StartHeap(heap: array<int>, weight: seq<int>, parent: array<int>, alphaSize: nat)
    requires 1 <= alphaSize <= MAX_ALPHA && heap.Length == MAX_ALPHA + 2 && parent.Length == NODES && heap != parent
    requires LeafWeights(weight) && |weight| == alphaSize + 1
    modifies heap, parent
    ensures Heap(heap[..alphaSize + 1], weight) && Lists(heap[..alphaSize + 1], Leaves(alphaSize))
    ensures parent[..alphaSize + 1] == Unjoined(alphaSize)
  {
    hide Heap, Lists, Unjoined, LeafWeights;
    heap[0] := 0;
    parent[0] := -2;
    LeafWeightsNodes(weight);
    UnjoinedPush(0);
    assert parent[..1] == [-2];
    assert heap[..1] == [0] && Leaves(0) == {};
    var i := 1;
    while i <= alphaSize
      invariant 1 <= i <= alphaSize + 1 && parent[..i] == Unjoined(i - 1)
      invariant Heap(heap[..i], weight) && Lists(heap[..i], Leaves(i - 1))
    {
      UnjoinedPush(i - 1);
      parent[i] := -1;
      assert parent[..i + 1] == parent[..i] + [-1];
      InsertNode(heap, weight, i - 1, i, Leaves(i - 1));
      assert Leaves(i - 1) + {i} == Leaves(i);
      i := i + 1;
    }
  }

  /** One turn of the join loop. */
  method JoinLightest(heap: array<int>, weight: array<int>, parent: array<int>, nHeap: nat, nNodes: nat,
                      ghost leaves: nat, ghost live: set<int>, ghost last: nat, ghost total: nat)
    returns (ghost live': set<int>, ghost last': nat)
    requires heap.Length == MAX_ALPHA + 2 && weight.Length == parent.Length == NODES
    requires heap != weight && heap != parent && weight != parent
    requires 2 <= nHeap < heap.Length && nNodes + 1 < NODES && total < 8388608
    requires Heap(heap[..nHeap + 1], weight[..nNodes + 1]) && Lists(heap[..nHeap + 1], live)
    requires Forest(parent[..nNodes + 1], weight[..nNodes + 1], leaves, live, last, total)
    modifies heap, weight, parent
    ensures Heap(heap[..nHeap], weight[..nNodes + 2]) && Lists(heap[..nHeap], live')
    ensures Forest(parent[..nNodes + 2], weight[..nNodes + 2], leaves, live', last', total)
    ensures weight[..nNodes + 1] == old(weight[..nNodes + 1])
  {
    hide Heap, Lists, Forest;
    ghost var p, w := parent[..nNodes + 1], weight[..nNodes + 1];
    ForestShape(p, w, leaves, live, last, total);
    var n1 := ExtractLightest(heap, weight[..nNodes + 1], nHeap, live);
    var n2 := ExtractLightest(heap, weight[..nNodes + 1], nHeap - 1, live - {n1});
    JoinForest(p, w, leaves, live, last, total, n1, n2);
    var x := AddWeights(weight[n1], weight[n2]);
    parent[n1], parent[n2] := nNodes + 1, nNodes + 1;
    weight[nNodes + 1] := x;
    parent[nNodes + 1] := -1;
    assert parent[..nNodes + 2] == Joined(p, n1, n2);
    assert weight[..nNodes + 2] == w + [x];
    ghost var rest := live - {n1} - {n2};
    HeapExtends(heap[..nHeap - 1], w, x);
    InsertNode(heap, weight[..nNodes + 2], nHeap - 2, nNodes + 1, rest);
    live', last' := rest + {nNodes + 1}, Freq(w[n2]);
  }

  lemma OneRootLeft(p: seq<int>, w: seq<int>, leaves: nat, live: set<int>, last: nat, total: nat, h: seq<int>)
    requires Forest(p, w, leaves, live, last, total) && Lists(h, live) && |h| == 2
    ensures Tree(p, w, leaves, last, total)
  {
    ListsSize(h, live);
    assert p[|p| - 1] == -1;
    SubsetOfSameSize({|p| - 1}, live);
  }

  method JoinAll(heap: array<int>, weight: array<int>, parent: array<int>, alphaSize: nat, ghost total: nat)
    returns (nNodes: nat, ghost last: nat)
    requires heap.Length == MAX_ALPHA + 2 && weight.Length == parent.Length == NODES
    requires heap != weight && heap != parent && weight != parent
    requires 2 <= alphaSize <= MAX_ALPHA && total < 8388608
    requires Heap(heap[..alphaSize + 1], weight[..alphaSize + 1]) && Lists(heap[..alphaSize + 1], Leaves(alphaSize))
    requires Forest(parent[..alphaSize + 1], weight[..alphaSize + 1], alphaSize, Leaves(alphaSize), 0, total)
    modifies heap, weight, parent
    ensures nNodes == 2 * alphaSize - 1 && Tree(parent[..nNodes + 1], weight[..nNodes + 1], alphaSize, last, total)
    ensures weight[..alphaSize + 1] == old(weight[..alphaSize + 1])
  {
    hide Heap, Lists, Forest, Tree;
    nNodes := alphaSize;
    var nHeap := alphaSize;
    last := 0;
    ghost var live := Leaves(alphaSize);
    while nHeap > 1
      invariant 1 <= nHeap <= alphaSize <= nNodes && nHeap + nNodes == 2 * alphaSize
      invariant Heap(heap[..nHeap + 1], weight[..nNodes + 1]) && Lists(heap[..nHeap + 1], live)
      invariant Forest(parent[..nNodes + 1], weight[..nNodes + 1], alphaSize, live, last, total)
      invariant weight[..alphaSize + 1] == old(weight[..alphaSize + 1])
    {
      ghost var w := weight[..nNodes + 1];
      assert w[..alphaSize + 1] == weight[..alphaSize + 1];
      live, last := JoinLightest(heap, weight, parent, nHeap, nNodes, alphaSize, live, last, total);
      assert w == weight[..nNodes + 1];
      assert w[..alphaSize + 1] == weight[..alphaSize + 1];
      nHeap := nHeap - 1;
      nNodes := nNodes + 1;
    }
    OneRootLeft(parent[..nNodes + 1], weight[..nNodes + 1], alphaSize, live, last, total, heap[..nHeap + 1]);
  }


  method MeasureLeaf(parent: array<int>, i: nat, ghost n: nat) returns (j: nat)
    requires i < n <= parent.Length && Upward(parent[..n])
    ensures j == Depth(parent[..n], i)
  {
    j := 0;
    var k := i;
    ghost var p := parent[..n];
    assert p[k] == parent[k];
    while parent[k] >= 0
      invariant k < n && j + Depth(p, k) == Depth(p, i)
      decreases n - k
    {
      assert p[k] == parent[k];
      k := parent[k];
      j := j + 1;
    }
    assert p[k] == parent[k];
  }

  method MeasureAll(len: array<byte>, parent: array<int>, alphaSize: nat, maxLen: nat, ghost n: nat)
    returns (tooLong: bool)
    requires alphaSize < n <= parent.Length && alphaSize <= len.Length && Upward(parent[..n])
    requires forall k :: 1 <= k < n ==> Depth(parent[..n], k) < 256
    modifies len
    ensures LeafDepths(parent[..n], len[..alphaSize])
    ensures tooLong <==> exists k :: 1 <= k <= alphaSize && Depth(parent[..n], k) > maxLen
  {
    hide Depth;
    tooLong := false;
    var i := 1;
    while i <= alphaSize
      invariant 1 <= i <= alphaSize + 1 && LeafDepths(parent[..n], len[..i - 1])
      invariant tooLong <==> exists k :: 1 <= k < i && Depth(parent[..n], k) > maxLen
    {
      var j := MeasureLeaf(parent, i, n);
      ghost var before := len[..i - 1];
      len[i - 1] := j;
      assert len[..i] == before + [j as byte];
      if j > maxLen {
        tooLong := true;
      }
      i := i + 1;
    }
  }

  // ---- BZ2_hbMakeCodeLengths ----

  /** Code lengths in 1..top whose Kraft sum is exactly one. */
  ghost predicate Complete(len: seq<byte>, top: nat) {
    && (forall i :: 0 <= i < |len| ==> 1 <= len[i] <= top)
    && Kraft(len, top) == Pow2(top)
  }

  lemma {:induction false} SameKraft(len: seq<byte>, top: nat)
    requires forall i :: 0 <= i < |len| ==> 1 <= len[i] <= top
    ensures Kraft(len, top) == KraftSum(len, top)
  {
    if len != [] {
      SameKraft(len[..|len| - 1], top);
    }
  }

  /** What the depths of the leaves are worth. */
  lemma TreeMeasured(p: seq<int>, w: seq<int>, f: seq<nat>, last: nat, len: seq<byte>, maxLen: nat)
    requires Tree(p, w, |f|, last, Sum(f)) && Upward(p) && |p| == 2 * |f| && |f| >= 2 && |len| == |f|
    requires |w| > |f| && Loaded(w[..|f| + 1], f) && Sum(f) < 8388608 && LeafDepths(p, len)
    ensures Optimal(f, len) && (OptimalWithin(f, maxLen) <==> Shallow(len, maxLen))
    ensures Shallow(len, maxLen) ==> Complete(len, maxLen)
  {
    hide Tree, Whole, Depth, Optimal, Loaded;
    var n := |f|;
    TreeIsWhole(p, w, n, last, Sum(f));
    WeightsCount(p, w, n);
    LoadedFreqs(w, f);
    forall i | 0 <= i < n
      ensures 1 <= len[i] <= 32
    {
      TreeDepths(p, w, n, last, Sum(f), i + 1, 32);
      LeafLinked(p, w, n, i + 1);
    }
    TreeIsOptimal(p, w, n, len, 32, maxLen);
    if Shallow(len, maxLen) {
      TreeAdmits(p, w, n, len, maxLen);
      SameKraft(len, maxLen);
    }
  }

  lemma LeafLinked(p: seq<int>, w: seq<int>, leaves: nat, k: nat)
    requires Whole(p, w, leaves) && 1 <= k < |p| - 1
    ensures Depth(p, k) >= 1
  {
  }

  lemma LoadedFreqs(w: seq<int>, f: seq<nat>)
    requires |w| > |f| && Loaded(w[..|f| + 1], f) && forall k :: 0 <= k < |w| ==> 0 <= w[k]
    ensures LeafFreqs(w, |f|) == f && FlatLeaves(w, |f|)
  {
    forall k | 1 <= k <= |f|
      ensures w[k] == f[k - 1] * 256
    {
      assert w[..|f| + 1][k - 1 + 1] == f[k - 1] * 256;
    }
  }

  lemma TooDeep(p: seq<int>, len: seq<byte>, maxLen: nat)
    requires Upward(p) && LeafDepths(p, len)
    ensures Shallow(len, maxLen) <==> !exists k :: 1 <= k <= |len| && Depth(p, k) > maxLen
  {
    if k :| 1 <= k <= |len| && Depth(p, k) > maxLen {
      assert len[k - 1] == Depth(p, k - 1 + 1);
    }
  }

  /** One round: build the tree for the current leaf weights and measure it. */
  method Round(len: array<byte>, heap: array<int>, weight: array<int>, parent: array<int>, ghost f: seq<nat>,
               alphaSize: nat, maxLen: nat) returns (tooLong: bool)
    requires heap.Length == MAX_ALPHA + 2 && weight.Length == parent.Length == NODES && len.Length >= alphaSize
    requires heap != weight && heap != parent && weight != parent
    requires 2 <= alphaSize == |f| <= MAX_ALPHA && (forall i :: 0 <= i < |f| ==> f[i] > 0) && Sum(f) < 8388608
    requires Loaded(weight[..alphaSize + 1], f)
    modifies len, heap, weight, parent
    ensures Loaded(weight[..alphaSize + 1], f) && (tooLong <==> !OptimalWithin(f, maxLen))
    ensures !tooLong ==> Optimal(f, len[..alphaSize]) && Complete(len[..alphaSize], maxLen)
  {
    hide Heap, Lists, Forest, Tree, LeafDepths, Optimal, Loaded, Complete, Depth, Sum, OptimalWithin;
    ghost var w := weight[..alphaSize + 1];
    ghost var total := Sum(f);
    LoadedSum(w, f);
    StartHeap(heap, weight[..alphaSize + 1], parent, alphaSize);
    StartForest(w, alphaSize);
    var nNodes, last := JoinAll(heap, weight, parent, alphaSize, total);
    ghost var p, v := parent[..nNodes + 1], weight[..nNodes + 1];
    assert v[..alphaSize + 1] == weight[..alphaSize + 1];
    TreeUpward(p, v, alphaSize, last, total);
    forall k | 1 <= k < |p|
      ensures Depth(p, k) <= 32
    {
      TreeDepths(p, v, alphaSize, last, total, k, 0);
    }
    tooLong := MeasureAll(len, parent, alphaSize, maxLen, nNodes + 1);
    assert parent[..nNodes + 1] == p;
    TreeMeasured(p, v, f, last, len[..alphaSize], maxLen);
    TooDeep(p, len[..alphaSize], maxLen);
  }

  /**
   * BZ2_hbMakeCodeLengths. The lengths are complete and at most maxLen, and no prefix code spends fewer bits on the
   * frequencies, or, as long as every optimal code for them has a longer length, on the rescaled ones. It ends for
   * all frequencies for which rescaling leads there, if their sum shifted by 8 stays within 31 bits.
   */
  method MakeCodeLengths(len: array<byte>, freq: seq<int>, alphaSize: nat, maxLen: nat)
    requires |freq| == alphaSize <= len.Length && 2 <= alphaSize <= MAX_ALPHA
    requires (forall i :: 0 <= i < |freq| ==> 0 <= freq[i]) && Sum(Positives(freq)) < 8388608
    requires RescalingEnds(Positives(freq), maxLen)
    modifies len
    ensures Complete(len[..alphaSize], maxLen) && Measured(len[..alphaSize], Positives(freq), maxLen)
  {
    hide Complete, OptimalWithin, Optimal, Loaded, Sum;
    var heap := new int[MAX_ALPHA + 2](_ => 0);
    var weight := new int[NODES](_ => 0);
    var parent := new int[NODES](_ => 0);
    LoadWeights(weight, freq);
    ghost var f0, k := Positives(freq), 0;
    ghost var enough: nat :| OptimalWithin(Halvings(f0, enough), maxLen);
    while true
      invariant 0 <= k <= enough && Sum(Halvings(f0, k)) < 8388608
      invariant Loaded(weight[..alphaSize + 1], Halvings(f0, k))
      invariant forall i :: 0 <= i < alphaSize ==> Halvings(f0, k)[i] > 0
      invariant forall j: nat :: j < k ==> !OptimalWithin(Halvings(f0, j), maxLen)
      decreases enough - k
    {
      ghost var f := Halvings(f0, k);
      var tooLong := Round(len, heap, weight, parent, f, alphaSize, maxLen);
      if !tooLong {
        assert ShortAfter(f0, k, maxLen);
        break;
      }
      RescaleShrinks(f);
      Rescale(weight, f, alphaSize);
      k := k + 1;
    }
  }
}
