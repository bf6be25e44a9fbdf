/** What makes code lengths optimal, and the two steps of Huffman's argument. */
module OptimalCode {
  import opened Base

  /**
   * Code lengths of some items; a negative length: the item has no code. Each item has a frequency, and a height,
   * by which its own parts lie deeper still.
   */
  datatype Items = Items(freq: seq<nat>, height: seq<nat>)

  ghost predicate Fits(it: Items, l: seq<int>) {
    |it.freq| == |it.height| == |l| && forall i :: 0 <= i < |l| && l[i] >= 0 ==> it.freq[i] > 0
  }

  function BitsSpent(f: nat, x: int): nat {
    if x < 0 then 0 else f * x
  }

  /** The number of bits spent, if every item occurs as often as its frequency says. */
  function TotalBits(f: seq<nat>, l: seq<int>): nat
    requires |f| == |l|
  {
    if l == [] then 0 else TotalBits(f[..|l| - 1], l[..|l| - 1]) + BitsSpent(f[|l| - 1], l[|l| - 1])
  }

  function Share(x: int, top: nat): nat {
    if 0 <= x <= top then Pow2(top - x) else 0
  }

  /** The Kraft sum, in units of 2^-top. */
  function KraftSum(l: seq<int>, top: nat): nat {
    if l == [] then 0 else KraftSum(l[..|l| - 1], top) + Share(l[|l| - 1], top)
  }

  /** Lengths a prefix code can have. */
  ghost predicate Admits(l: seq<int>, top: nat) {
    (forall i :: 0 <= i < |l| ==> l[i] <= top) && KraftSum(l, top) <= Pow2(top)
  }

  /** Nothing lies deeper than `t`. */
  ghost predicate StaysWithin(it: Items, l: seq<int>, t: nat)
    requires |it.height| == |l|
  {
    forall i :: 0 <= i < |l| && l[i] >= 0 ==> l[i] + it.height[i] <= t
  }

  /** `a` spends fewer bits than `b`, or as many and stays within `t` if `b` does. */
  ghost predicate NoWorse(it: Items, a: seq<int>, b: seq<int>, t: nat)
    requires Fits(it, a) && Fits(it, b)
  {
    TotalBits(it.freq, a) < TotalBits(it.freq, b)
    || (TotalBits(it.freq, a) == TotalBits(it.freq, b) && (StaysWithin(it, b, t) ==> StaysWithin(it, a, t)))
  }

  /** The order in which items are taken: by frequency, then by height. */
  predicate Lighter(it: Items, i: nat, j: nat)
    requires |it.freq| == |it.height| && i < |it.freq| && j < |it.freq|
  {
    it.freq[i] < it.freq[j] || (it.freq[i] == it.freq[j] && it.height[i] <= it.height[j])
  }

  // ---- one length changes ----

  lemma {:induction false} CostUpdate(f: seq<nat>, l: seq<int>, i: nat, x: int)
    requires |f| == |l| && i < |l|
    ensures TotalBits(f, l[i := x]) == TotalBits(f, l) - BitsSpent(f[i], l[i]) + BitsSpent(f[i], x)
  {
    hide BitsSpent;
    var k := |l| - 1;
    if i < k {
      CostUpdate(f[..k], l[..k], i, x);
      assert l[i := x][..k] == l[..k][i := x];
    } else {
      assert l[i := x][..k] == l[..k];
    }
  }

  lemma {:induction false} KraftUpdate(l: seq<int>, i: nat, x: int, top: nat)
    requires i < |l|
    ensures KraftSum(l[i := x], top) == KraftSum(l, top) - Share(l[i], top) + Share(x, top)
  {
    hide Share;
    var k := |l| - 1;
    if i < k {
      KraftUpdate(l[..k], i, x, top);
      assert l[i := x][..k] == l[..k][i := x];
    } else {
      assert l[i := x][..k] == l[..k];
    }
  }

  /** Where no length is `top` + 1, the finer unit doubles the sum. */
  lemma {:induction false} KraftDoubles(l: seq<int>, top: nat)
    requires forall i :: 0 <= i < |l| ==> l[i] <= top
    ensures KraftSum(l, top + 1) == 2 * KraftSum(l, top)
  {
    if l != [] {
      KraftDoubles(l[..|l| - 1], top);
    }
  }

  // ---- exchanging two lengths ----

  lemma ExchangeProducts(fa: nat, fb: nat, x: nat, y: nat)
    requires fa < fb && x < y
    ensures fa * y + fb * x < fa * x + fb * y
  {
    assert (fb - fa) * (y - x) > 0;
    assert (fb - fa) * (y - x) == fb * y - fb * x - fa * y + fa * x;
  }

  function Swapped(l: seq<int>, a: nat, b: nat): (r: seq<int>)
    requires a < |l| && b < |l|
    ensures |r| == |l|
  {
    l[a := l[b]][b := l[a]]
  }

  /** Giving the longer of two lengths to the lighter item does no harm. */
  lemma SwapNoWorse(it: Items, l: seq<int>, a: nat, b: nat, top: nat, t: nat)
    requires Fits(it, l) && a < |l| && b < |l| && a != b && 0 <= l[a] <= l[b] && Lighter(it, a, b)
    requires Admits(l, top)
    ensures Fits(it, Swapped(l, a, b)) && Admits(Swapped(l, a, b), top) && NoWorse(it, Swapped(l, a, b), l, t)
  {
    hide TotalBits, KraftSum, Share;
    var r := Swapped(l, a, b);
    CostUpdate(it.freq, l, a, l[b]);
    CostUpdate(it.freq, l[a := l[b]], b, l[a]);
    KraftUpdate(l, a, l[b], top);
    KraftUpdate(l[a := l[b]], b, l[a], top);
    if it.freq[a] < it.freq[b] && l[a] < l[b] {
      ExchangeProducts(it.freq[a], it.freq[b], l[a], l[b]);
    } else if l[a] == l[b] {
      assert r == l;
    }
  }

  lemma NoWorseAll(it: Items, a: seq<int>, b: seq<int>, c: seq<int>, t: nat)
    requires Fits(it, a) && Fits(it, b) && Fits(it, c) && NoWorse(it, a, b, t) && NoWorse(it, b, c, t)
    ensures NoWorse(it, a, c, t)
  {
  }

  // ---- first step: the two lightest items can have the longest codes ----

  /** The one longest code has a free string beside it and can be shortened. */
  lemma LoneShorter(it: Items, l: seq<int>, top: nat, i: nat, t: nat)
    requires Fits(it, l) && top > 0 && Admits(l, top) && i < |l| && l[i] == top
    requires forall j :: 0 <= j < |l| && j != i ==> l[j] < top
    ensures Fits(it, l[i := top - 1]) && Admits(l[i := top - 1], top - 1) && NoWorse(it, l[i := top - 1], l, t)
  {
    hide TotalBits, KraftSum;
    KraftUpdate(l, i, -1, top);
    KraftDoubles(l[i := -1], top - 1);
    KraftUpdate(l[i := -1], i, top - 1, top - 1);
    assert l[i := -1][i := top - 1] == l[i := top - 1];
    CostUpdate(it.freq, l, i, top - 1);
    assert it.freq[i] * (top - 1) == it.freq[i] * top - it.freq[i];
  }

  lemma TwoNeedABit(l: seq<int>, a: nat, b: nat)
    requires Admits(l, 0) && a < |l| && b < |l| && a != b
    ensures l[a] < 0 || l[b] < 0
  {
    KraftUpdate(l, a, -1, 0);
    KraftUpdate(l[a := -1], b, -1, 0);
  }

  ghost predicate Lightest(it: Items, l: seq<int>, a: nat, b: nat)
    requires Fits(it, l)
  {
    && a < |l| && b < |l| && a != b && l[a] >= 0 && l[b] >= 0
    && forall j :: 0 <= j < |l| && l[j] >= 0 && j != a && j != b ==> Lighter(it, a, j) && Lighter(it, b, j)
  }

  ghost predicate SameItems(l: seq<int>, r: seq<int>) {
    |l| == |r| && forall i :: 0 <= i < |l| ==> (l[i] < 0 <==> r[i] < 0)
  }

  /** With two longest codes, two exchanges bring them to the two lightest items. */
  lemma BringDown(it: Items, l: seq<int>, top: nat, a: nat, b: nat, i: nat, j: nat, t: nat) returns (r: seq<int>)
    requires Fits(it, l) && Admits(l, top) && Lightest(it, l, a, b)
    requires i < |l| && j < |l| && i != j && l[i] == top && l[j] == top
    ensures SameItems(l, r) && Fits(it, r) && Admits(r, top) && r[a] == top && r[b] == top && NoWorse(it, r, l, t)
  {
    hide KraftSum, Admits, NoWorse;
    assert forall k :: 0 <= k < |l| ==> l[k] <= top by {
      AdmitsTop(l, top);
    }
    Reflexive(it, l, t);
    r := l;
    var other := j;
    if l[a] < top {
      var first := if i == b then j else i;
      other := if i == b then i else j;
      SwapNoWorse(it, l, a, first, top, t);
      r := Swapped(l, a, first);
    } else if j == a {
      other := i;
    }
    if r[b] < top {
      SwapNoWorse(it, r, b, other, top, t);
      NoWorseAll(it, Swapped(r, b, other), r, l, t);
      r := Swapped(r, b, other);
    }
  }

  lemma AdmitsTop(l: seq<int>, top: nat)
    requires Admits(l, top)
    ensures forall k :: 0 <= k < |l| ==> l[k] <= top
  {
  }

  lemma Reflexive(it: Items, l: seq<int>, t: nat)
    requires Fits(it, l)
    ensures NoWorse(it, l, l, t)
  {
  }

  lemma {:induction false} Deepen(it: Items, l: seq<int>, top: nat, a: nat, b: nat, t: nat)
    returns (r: seq<int>, depth: nat)
    requires Fits(it, l) && Admits(l, top) && Lightest(it, l, a, b)
    ensures SameItems(l, r) && Fits(it, r) && depth >= 1 && Admits(r, depth) && r[a] == depth && r[b] == depth
    ensures NoWorse(it, r, l, t)
    decreases top
  {
    hide KraftSum, NoWorse, TotalBits;
    if top == 0 {
      TwoNeedABit(l, a, b);
    }
    if i :| 0 <= i < |l| && l[i] == top {
      if j :| 0 <= j < |l| && l[j] == top && j != i {
        depth := top;
        r := BringDown(it, l, top, a, b, i, j, t);
      } else {
        LoneShorter(it, l, top, i, t);
        r, depth := Deepen(it, l[i := top - 1], top - 1, a, b, t);
        NoWorseAll(it, r, l[i := top - 1], l, t);
      }
    } else {
      KraftDoubles(l, top - 1);
      r, depth := Deepen(it, l, top - 1, a, b, t);
    }
  }

  // ---- second step: two siblings become one item ----

  function Paired(l: seq<int>, a: nat, b: nat, m: nat, x: int): (r: seq<int>)
    requires a < |l| && b < |l| && m < |l|
    ensures |r| == |l|
  {
    l[a := -1][b := -1][m := x]
  }

  /** Item `m` stands for `a` and `b` together. */
  predicate JoinsTo(it: Items, a: nat, b: nat, m: nat)
    requires |it.freq| == |it.height| && a < |it.freq| && b < |it.freq| && m < |it.freq|
  {
    && it.freq[m] == it.freq[a] + it.freq[b]
    && it.height[m] == 1 + if it.height[a] > it.height[b] then it.height[a] else it.height[b]
  }

  lemma PairKraft(l: seq<int>, a: nat, b: nat, m: nat, top: nat)
    requires a < |l| && b < |l| && m < |l| && a != b && a != m && b != m && l[m] < 0 && l[a] == l[b] == top > 0
    requires Admits(l, top)
    ensures Admits(Paired(l, a, b, m, top - 1), top)
  {
    hide KraftSum;
    KraftUpdate(l, a, -1, top);
    KraftUpdate(l[a := -1], b, -1, top);
    KraftUpdate(l[a := -1][b := -1], m, top - 1, top);
    assert Pow2(0) == 1 && Pow2(1) == 2;
  }

  /** Pairing two siblings saves their one common bit each, and leaves what lies deepest as deep. */
  lemma PairCost(it: Items, l: seq<int>, a: nat, b: nat, m: nat, x: nat, t: nat)
    requires Fits(it, l) && a < |l| && b < |l| && m < |l| && a != b && a != m && b != m
    requires l[m] < 0 && l[a] == l[b] == x > 0 && JoinsTo(it, a, b, m)
    ensures Fits(it, Paired(l, a, b, m, x - 1))
    ensures TotalBits(it.freq, l) == TotalBits(it.freq, Paired(l, a, b, m, x - 1)) + it.freq[a] + it.freq[b]
    ensures StaysWithin(it, l, t) <==> StaysWithin(it, Paired(l, a, b, m, x - 1), t)
  {
    hide TotalBits;
    CostUpdate(it.freq, l, a, -1);
    CostUpdate(it.freq, l[a := -1], b, -1);
    CostUpdate(it.freq, l[a := -1][b := -1], m, x - 1);
    var r, fa, fb := Paired(l, a, b, m, x - 1), it.freq[a], it.freq[b];
    assert (fa + fb) * (x - 1) == fa * x + fb * x - fa - fb;
    if StaysWithin(it, r, t) {
      assert r[m] + it.height[m] <= t;
      forall i | 0 <= i < |l| && l[i] >= 0
        ensures l[i] + it.height[i] <= t
      {
        assert i != a && i != b ==> r[i] == l[i];
      }
    }
    if StaysWithin(it, l, t) {
      assert l[a] + it.height[a] <= t && l[b] + it.height[b] <= t;
      forall i | 0 <= i < |l| && r[i] >= 0
        ensures r[i] + it.height[i] <= t
      {
        assert i != m ==> r[i] == l[i];
      }
    }
  }

  /** Both steps: any code for the items gives one for the items after `a` and `b` are joined, and what that saves. */
  lemma JoinStep(it: Items, l: seq<int>, top: nat, a: nat, b: nat, m: nat, t: nat)
    returns (r: seq<int>, q: seq<int>, depth: nat)
    requires Fits(it, l) && Admits(l, top) && Lightest(it, l, a, b) && m < |l| && l[m] < 0 && JoinsTo(it, a, b, m)
    ensures Fits(it, r) && SameItems(l, r) && depth >= 1 && r[a] == r[b] == depth && NoWorse(it, r, l, t)
    ensures q == Paired(r, a, b, m, depth - 1) && Fits(it, q) && Admits(q, depth)
    ensures TotalBits(it.freq, r) == TotalBits(it.freq, q) + it.freq[a] + it.freq[b]
    ensures StaysWithin(it, r, t) <==> StaysWithin(it, q, t)
  {
    hide TotalBits, Admits, NoWorse, StaysWithin;
    r, depth := Deepen(it, l, top, a, b, t);
    q := Paired(r, a, b, m, depth - 1);
    PairKraft(r, a, b, m, depth);
    PairCost(it, r, a, b, m, depth, t);
  }

  // ---- optimal codes for symbols ----

  /** The lengths of a prefix code for `n` symbols. */
  ghost predicate PrefixLengths(l: seq<int>, n: nat) {
    |l| == n && (forall i :: 0 <= i < n ==> l[i] >= 0) && exists top: nat :: Admits(l, top)
  }

  /** No prefix code spends fewer bits. */
  ghost predicate Optimal(f: seq<nat>, l: seq<int>) {
    PrefixLengths(l, |f|) && forall other :: PrefixLengths(other, |f|) ==> TotalBits(f, l) <= TotalBits(f, other)
  }

  predicate Shallow(l: seq<int>, t: nat) {
    forall i :: 0 <= i < |l| ==> l[i] <= t
  }

  /** Some optimal code is no deeper than `t`. */
  ghost predicate OptimalWithin(f: seq<nat>, t: nat) {
    exists l :: Optimal(f, l) && Shallow(l, t)
  }

  /** An optimal code gives no longer a code to the more frequent symbol. */
  lemma FrequentShorter(f: seq<nat>, l: seq<int>, i: nat, j: nat)
    requires Optimal(f, l) && i < |f| && j < |f| && f[i] > f[j]
    ensures l[i] <= l[j]
  {
    hide TotalBits, KraftSum, Share;
    if l[i] > l[j] {
      var top: nat :| Admits(l, top);
      var r := Swapped(l, j, i);
      CostUpdate(f, l, j, l[i]);
      CostUpdate(f, l[j := l[i]], i, l[j]);
      KraftUpdate(l, j, l[i], top);
      KraftUpdate(l[j := l[i]], i, l[j], top);
      ExchangeProducts(f[j], f[i], l[j], l[i]);
      assert PrefixLengths(r, |f|) by {
        assert Admits(r, top);
      }
    }
  }
}
