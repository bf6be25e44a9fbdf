/** The UPHEAP and DOWNHEAP macros of huffman.c: a binary heap of node numbers, entry 0 a sentinel. */
module WeightHeap {
  import opened Base

  /** Every heap entry names a node; entry 0 is the sentinel node 0, lighter than all others. */
  ghost predicate Nodes(h: seq<int>, w: seq<int>) {
    && |h| > 0 && |w| > 0 && h[0] == 0
    && (forall i :: 1 <= i < |h| ==> 1 <= h[i] < |w|)
    && (forall k :: 1 <= k < |w| ==> w[0] <= w[k])
  }

  /** No entry is lighter than the entry half way up. */
  ghost predicate Heap(h: seq<int>, w: seq<int>) {
    Nodes(h, w) && forall i :: 2 <= i < |h| ==> w[h[i / 2]] <= w[h[i]]
  }

  /** Heap order but for the link from `z` to its parent. */
  ghost predicate HeapBut(h: seq<int>, w: seq<int>, z: nat) {
    && Nodes(h, w) && 1 <= z < |h|
    && (forall i :: 2 <= i < |h| && i != z ==> w[h[i / 2]] <= w[h[i]])
    && (forall i :: 2 <= i < |h| && i / 2 == z ==> w[h[z / 2]] <= w[h[i]])
  }

  /** Heap order but for the links from `z` to its children. */
  ghost predicate HeapBelow(h: seq<int>, w: seq<int>, z: nat) {
    && Nodes(h, w) && 1 <= z < |h|
    && (forall i :: 2 <= i < |h| && i / 2 != z ==> w[h[i / 2]] <= w[h[i]])
    && (forall i :: 2 <= i < |h| && i / 2 == z ==> w[h[z / 2]] <= w[h[i]])
  }

  function Exchange(h: seq<int>, i: nat, j: nat): (r: seq<int>)
    requires i < |h| && j < |h|
    ensures |r| == |h| && multiset(r) == multiset(h)
  {
    SwapKeepsMultiset(h, i, j);
    h[i := h[j]][j := h[i]]
  }

  lemma UpStep(h: seq<int>, w: seq<int>, z: nat)
    requires HeapBut(h, w, z) && w[h[z]] < w[h[z / 2]]
    ensures z >= 2 && HeapBut(Exchange(h, z, z / 2), w, z / 2)
  {
    assert z >= 2;
    var y := z / 2;
    var r := Exchange(h, z, y);
    assert y >= 2 ==> w[h[y / 2]] <= w[h[y]];
    forall i | 2 <= i < |h| && i != y
      ensures w[r[i / 2]] <= w[r[i]]
    {
      assert w[h[i / 2]] <= w[h[i]] || i == z;
    }
    forall i | 2 <= i < |h| && i / 2 == y
      ensures w[r[y / 2]] <= w[r[i]]
    {
    }
  }

  lemma UpDone(h: seq<int>, w: seq<int>, z: nat)
    requires HeapBut(h, w, z) && w[h[z / 2]] <= w[h[z]]
    ensures Heap(h, w)
  {
  }

  /** UPHEAP(z): `heap` holds the heap in its first `n` + 1 cells. */
  method UpHeap(heap: array<int>, weight: seq<int>, n: nat, z: nat)
    requires 1 <= z <= n < heap.Length && HeapBut(heap[..n + 1], weight, z)
    modifies heap
    ensures Heap(heap[..n + 1], weight) && multiset(heap[..n + 1]) == old(multiset(heap[..n + 1]))
  {
    hide HeapBut, Heap;
    var zz := z;
    var tmp := heap[zz];
    ghost var v := heap[..n + 1];
    while UpTest(heap, weight, n, zz, tmp, v)
      invariant 1 <= zz <= n && HeapBut(v, weight, zz)
      invariant v == heap[..n + 1][zz := tmp] && v[zz] == tmp
      invariant multiset(v) == old(multiset(heap[..n + 1]))
      decreases zz
    {
      UpStep(v, weight, zz);
      ghost var r := Exchange(v, zz, zz / 2);
      heap[zz] := heap[zz / 2];
      zz := zz / 2;
      assert heap[..n + 1][zz := tmp] == r;
      v := r;
    }
    heap[zz] := tmp;
    assert heap[..n + 1] == v;
    UpDone(v, weight, zz);
  }

  /** weight[tmp] < weight[heap[zz >> 1]]; at the top the sentinel answers. */
  function UpTest(heap: array<int>, weight: seq<int>, n: nat, zz: nat, tmp: int, ghost v: seq<int>): (up: bool)
    requires 1 <= zz <= n < heap.Length && HeapBut(v, weight, zz) && v == heap[..n + 1][zz := tmp] && v[zz] == tmp
    reads heap
    ensures up == (weight[v[zz]] < weight[v[zz / 2]])
  {
    assert heap[zz / 2] == v[zz / 2];
    weight[tmp] < weight[heap[zz / 2]]
  }

  /** The lighter child `y` of `z` moves up. */
  lemma DownStep(h: seq<int>, w: seq<int>, z: nat, y: nat)
    requires HeapBelow(h, w, z) && y / 2 == z && 2 <= y < |h| && w[h[y]] <= w[h[z]]
    requires forall i :: 2 <= i < |h| && i / 2 == z ==> w[h[y]] <= w[h[i]]
    ensures HeapBelow(Exchange(h, z, y), w, y)
  {
    var r := Exchange(h, z, y);
    forall i | 2 <= i < |h| && i / 2 != y
      ensures w[r[i / 2]] <= w[r[i]]
    {
      assert i != z && i / 2 != z ==> r[i] == h[i] && r[i / 2] == h[i / 2];
    }
  }

  /** No child of `z` is lighter. */
  ghost predicate Settled(h: seq<int>, w: seq<int>, z: nat)
    requires Nodes(h, w) && 1 <= z < |h|
  {
    forall i :: 2 <= i < |h| && i / 2 == z ==> w[h[z]] <= w[h[i]]
  }

  lemma DownDone(h: seq<int>, w: seq<int>, z: nat)
    requires HeapBelow(h, w, z) && (2 * z < |h| ==> Settled(h, w, z))
    ensures Heap(h, w)
  {
  }

  lemma HeapBelowNodes(h: seq<int>, w: seq<int>, z: nat)
    requires HeapBelow(h, w, z)
    ensures Nodes(h, w) && z < |h|
  {
  }

  /** The lighter child of `zz`, the left one on a tie. */
  method LighterChild(heap: array<int>, weight: seq<int>, n: nat, zz: nat) returns (yy: nat)
    requires 1 <= zz && 2 * zz <= n < heap.Length && |weight| > 0
    requires forall i :: zz < i <= n ==> 0 <= heap[i] < |weight|
    ensures yy / 2 == zz && 2 <= yy <= n && yy > zz
    ensures forall i :: 2 <= i <= n && i / 2 == zz ==> weight[heap[yy]] <= weight[heap[i]]
  {
    yy := 2 * zz;
    if yy < n && weight[heap[yy + 1]] < weight[heap[yy]] {
      yy := yy + 1;
    }
  }

  lemma Exchanged(a: seq<int>, i: nat, j: nat, x: int)
    requires i < |a| && j < |a| && i != j
    ensures a[i := a[j]][j := x] == Exchange(a[i := x], i, j)
  {
  }

  /** One turn of DOWNHEAP's loop; `v` is the heap with tmp back in place. */
  method SinkOnce(heap: array<int>, weight: seq<int>, n: nat, zz: nat, tmp: int, ghost v: seq<int>)
    returns (stop: bool, yy: nat, ghost r: seq<int>)
    requires 1 <= zz && 2 * zz <= n < heap.Length && HeapBelow(v, weight, zz)
    requires v == heap[..n + 1][zz := tmp] && v[zz] == tmp
    modifies heap
    ensures stop ==> heap[..] == old(heap[..]) && Settled(v, weight, zz)
    ensures !stop ==> zz < yy <= n && r == heap[..n + 1][yy := tmp] && r[yy] == tmp && HeapBelow(r, weight, yy)
    ensures !stop ==> multiset(r) == multiset(v)
  {
    hide HeapBelow, Heap, Exchange;
    HeapBelowNodes(v, weight, zz);
    ghost var a := heap[..n + 1];
    assert forall i :: zz < i <= n ==> heap[i] == v[i];
    yy := LighterChild(heap, weight, n, zz);
    r := v;
    stop := weight[tmp] < weight[heap[yy]];
    if !stop {
      DownStep(v, weight, zz, yy);
      r := Exchange(v, zz, yy);
      Exchanged(a, zz, yy, tmp);
      heap[zz] := heap[yy];
      assert heap[..n + 1] == a[zz := a[yy]];
    }
  }

  /** DOWNHEAP(z). */
  method DownHeap(heap: array<int>, weight: seq<int>, n: nat, z: nat)
    requires 1 <= z <= n < heap.Length && HeapBelow(heap[..n + 1], weight, z)
    modifies heap
    ensures Heap(heap[..n + 1], weight) && multiset(heap[..n + 1]) == old(multiset(heap[..n + 1]))
  {
    hide HeapBelow, Heap, Nodes;
    var zz := z;
    var tmp := heap[zz];
    ghost var v := heap[..n + 1];
    while 2 * zz <= n
      invariant 1 <= zz <= n && HeapBelow(v, weight, zz)
      invariant v == heap[..n + 1][zz := tmp] && v[zz] == tmp
      invariant multiset(v) == old(multiset(heap[..n + 1]))
      decreases n - zz
    {
      var stop, yy;
      ghost var r;
      stop, yy, r := SinkOnce(heap, weight, n, zz, tmp, v);
      if stop {
        break;
      }
      zz := yy;
      v := r;
    }
    heap[zz] := tmp;
    assert heap[..n + 1] == v;
    DownDone(v, weight, zz);
  }

  /** The top of the heap is a lightest entry. */
  lemma {:induction false} TopIsLightest(h: seq<int>, w: seq<int>, i: nat)
    requires Heap(h, w) && 1 <= i < |h|
    ensures w[h[1]] <= w[h[i]]
  {
    if i > 1 {
      TopIsLightest(h, w, i / 2);
    }
  }

  /** Entry 0 apart, the heap holds each node of `live` once. */
  ghost predicate Lists(h: seq<int>, live: set<int>) {
    0 !in live && multiset(h) == multiset(live + {0})
  }

  lemma ListsSize(h: seq<int>, live: set<int>)
    requires Lists(h, live)
    ensures |h| == |live| + 1 && forall x :: x in h <==> x in live + {0}
  {
    assert |multiset(h)| == |h| && |multiset(live + {0})| == |live + {0}|;
    forall x
      ensures x in h <==> x in live + {0}
    {
      assert x in h <==> x in multiset(h);
    }
  }

  lemma RemoveFirst(h: seq<int>, w: seq<int>)
    requires Heap(h, w) && |h| >= 3
    ensures HeapBelow(h[1 := h[|h| - 1]][..|h| - 1], w, 1)
    ensures multiset(h[1 := h[|h| - 1]][..|h| - 1]) == multiset(h) - multiset{h[1]}
  {
    var n := |h| - 1;
    var r := h[1 := h[n]][..n];
    assert Exchange(h, 1, n) == r + [h[1]];
    forall i | 2 <= i < |r| && i / 2 != 1
      ensures w[r[i / 2]] <= w[r[i]]
    {
      assert r[i] == h[i] && r[i / 2] == h[i / 2];
    }
    forall i | 2 <= i < |r| && i / 2 == 1
      ensures w[r[1 / 2]] <= w[r[i]]
    {
      assert r[0] == 0 && r[i] == h[i];
    }
  }

  lemma RemoveOnly(h: seq<int>, w: seq<int>)
    requires Heap(h, w) && |h| == 2
    ensures Heap(h[..1], w) && multiset(h[..1]) == multiset(h) - multiset{h[1]}
  {
    assert h == h[..1] + [h[1]];
  }

  lemma RemoveListed(h: seq<int>, r: seq<int>, live: set<int>, x: int)
    requires Lists(h, live) && x in live && multiset(r) == multiset(h) - multiset{x}
    ensures Lists(r, live - {x})
  {
    assert multiset(live + {0}) - multiset{x} == multiset((live - {x}) + {0});
  }

  lemma LightestListed(h: seq<int>, w: seq<int>, live: set<int>)
    requires Heap(h, w) && Lists(h, live) && |h| >= 2
    ensures h[1] in live && forall x :: x in live ==> 0 <= x < |w| && w[h[1]] <= w[x]
  {
    ListsSize(h, live);
    forall x | x in live
      ensures 0 <= x < |w| && w[h[1]] <= w[x]
    {
      var i :| 0 <= i < |h| && h[i] == x;
      TopIsLightest(h, w, i);
    }
  }

  /** n1 = heap[1]; heap[1] = heap[nHeap]; nHeap--; DOWNHEAP(1). */
  method ExtractLightest(heap: array<int>, weight: seq<int>, nHeap: nat, ghost live: set<int>) returns (top: int)
    requires 1 <= nHeap < heap.Length && Heap(heap[..nHeap + 1], weight) && Lists(heap[..nHeap + 1], live)
    modifies heap
    ensures top in live && 0 <= top < |weight|
    ensures forall x :: x in live ==> 0 <= x < |weight| && weight[top] <= weight[x]
    ensures Heap(heap[..nHeap], weight) && Lists(heap[..nHeap], live - {top})
  {
    hide Heap, HeapBelow, Lists;
    ghost var h := heap[..nHeap + 1];
    LightestListed(h, weight, live);
    top := heap[1];
    assert h[1] == top;
    heap[1] := heap[nHeap];
    assert heap[..nHeap] == h[1 := h[nHeap]][..nHeap];
    if nHeap > 1 {
      RemoveFirst(h, weight);
      DownHeap(heap, weight, nHeap - 1, 1);
    } else {
      assert h[..1] == heap[..1];
      RemoveOnly(h, weight);
    }
    RemoveListed(h, heap[..nHeap], live, top);
  }

  lemma AppendNode(h: seq<int>, w: seq<int>, x: int)
    requires Heap(h, w) && 1 <= x < |w|
    ensures HeapBut(h + [x], w, |h|)
  {
    var r := h + [x];
    forall i | 2 <= i < |r| && i != |h|
      ensures w[r[i / 2]] <= w[r[i]]
    {
      assert r[i] == h[i] && r[i / 2] == h[i / 2];
    }
  }

  lemma AppendListed(h: seq<int>, live: set<int>, x: int)
    requires Lists(h, live) && x != 0 && x !in live
    ensures multiset(h + [x]) == multiset(live + {x} + {0})
  {
    assert multiset(live + {x} + {0}) == multiset(live + {0}) + multiset{x};
  }

  /** nHeap++; heap[nHeap] = x; UPHEAP(nHeap). */
  method InsertNode(heap: array<int>, weight: seq<int>, nHeap: nat, x: int, ghost live: set<int>)
    requires nHeap + 1 < heap.Length && Heap(heap[..nHeap + 1], weight) && Lists(heap[..nHeap + 1], live)
    requires 1 <= x < |weight| && x !in live
    modifies heap
    ensures Heap(heap[..nHeap + 2], weight) && Lists(heap[..nHeap + 2], live + {x})
  {
    hide Heap, HeapBut;
    ghost var h := heap[..nHeap + 1];
    AppendNode(h, weight, x);
    AppendListed(h, live, x);
    heap[nHeap + 1] := x;
    assert heap[..nHeap + 2] == h + [x];
    UpHeap(heap, weight, nHeap + 1, nHeap + 1);
  }

  /** A new node at the end of the weights disturbs nothing. */
  lemma HeapExtends(h: seq<int>, w: seq<int>, x: int)
    requires Heap(h, w) && w[0] <= x
    ensures Heap(h, w + [x])
  {
  }
}
