/** How much room the tables of a code take, whatever order they are built in. */
module TableSize {
  import opened Base
  import opened BitString
  import opened Radix
  import opened InverseBwt
  import opened BlockVectors
  import opened CanonicalCode
  import opened LsbCode
  import opened InflateTable
  import opened SubTables

  /** A code too long for the root table that begins with root prefix `p`. */
  predicate Under(j: Job, p: nat, s: nat) {
    s < |j.lens| && j.lens[s] > j.root && Pre(j, s) == p
  }

  /** The length of the longest such code among the first `k` symbols; zero if there is none. */
  function Reach(j: Job, p: nat, k: nat): nat {
    if k == 0 then 0
    else
      var r := Reach(j, p, k - 1);
      if Under(j, p, k - 1) && j.lens[k - 1] > r then j.lens[k - 1] else r
  }

  /** The sub-table of root prefix `p`: as many bits as its longest code needs. */
  function SubSlots(j: Job, p: nat): nat {
    var r := Reach(j, p, |j.lens|);
    if r <= j.root then 0 else Pow2(r - j.root)
  }

  function SubTotal(j: Job, n: nat): nat {
    if n == 0 then 0 else SubTotal(j, n - 1) + SubSlots(j, n - 1)
  }

  /** The root table and the sub-tables of all root prefixes. */
  function Total(j: Job): nat {
    Pow2(j.root) + SubTotal(j, Pow2(j.root))
  }

  lemma {:induction false} ReachBounds(j: Job, p: nat, k: nat)
    ensures forall s :: 0 <= s < k && Under(j, p, s) ==> j.lens[s] <= Reach(j, p, k)
    ensures Reach(j, p, k) > 0 ==> exists s :: 0 <= s < k && Under(j, p, s) && j.lens[s] == Reach(j, p, k)
  {
    hide Pre;
    if k > 0 {
      ReachBounds(j, p, k - 1);
    }
  }

  // ---- the symbol of a given stretch of codes ----

  /** The least length at which the bits fall among the codes. */
  lemma {:induction false} FindLength(j: Job, v: nat, m: nat) returns (n: nat)
    requires m <= j.top && Shr(v, j.top - m) < Occupied(j.lens, m)
    ensures 1 <= n <= m && Occupied(j.lens, n - 1) <= Shr(v, j.top - (n - 1)) && Shr(v, j.top - n) < Occupied(j.lens, n)
    ensures forall x :: n <= x <= m ==> Shr(v, j.top - x) < Occupied(j.lens, x)
  {
    NoneOccupied(j.lens);
    if Shr(v, j.top - (m - 1)) < Occupied(j.lens, m - 1) {
      n := FindLength(j, v, m - 1);
    } else {
      n := m;
    }
  }

  lemma FindSymbol(lens: seq<byte>, v: nat, n: nat, top: nat) returns (s: nat)
    requires 1 <= n <= top <= MAXBITS
    requires Occupied(lens, n - 1) <= Shr(v, top - (n - 1)) && Shr(v, top - n) < Occupied(lens, n)
    ensures s < |lens| && lens[s] == n && CodeOf(lens, s) == Shr(v, top - n)
  {
    hide Below, LastToFirst, Shr;
    var u := Shr(v, top - n);
    ShrAdd(v, top - n, 1);
    ShrOnce(u);
    BelowStep(lens, n);
    BelowMonotone(lens, n + 1, 256);
    BelowAll(lens);
    var pos := Below(lens, n) + (u - First(lens, n));
    TVectorInverts(lens);
    s := TVector(lens, |lens|)[pos];
    BucketOf(lens, s);
    SameBucket(lens, lens[s], n, pos);
    PermPlace(lens, s);
  }

  lemma ShrOnce(u: nat)
    ensures Shr(u, 1) == u / 2
  {
    assert Shr(u / 2, 0) == u / 2;
  }

  lemma SameBucket(lens: seq<byte>, c: nat, d: nat, pos: nat)
    requires Below(lens, c) <= pos < Below(lens, c + 1) && Below(lens, d) <= pos < Below(lens, d + 1)
    ensures c == d
  {
    if c < d {
      BelowMonotone(lens, c + 1, d);
    } else if d < c {
      BelowMonotone(lens, d + 1, c);
    }
  }

  lemma BucketOf(lens: seq<byte>, s: nat)
    requires s < |lens|
    ensures Below(lens, lens[s]) <= LastToFirst(lens, s) < Below(lens, lens[s] as int + 1)
  {
  }

  // ---- the look-ahead finds the longest code ----

  /** The codes of up to root + c bits reach root prefix `p` but do not fill it. */
  ghost predicate Straddles(j: Job, p: nat, c: nat) {
    p * Pow2(c) <= Occupied(j.lens, j.root + c) < (p + 1) * Pow2(c)
  }

  /** While the codes of up to m bits do not fill root prefix `p`, a complete code has a longer one under it. */
  lemma Deeper(j: Job, p: nat, c: nat) returns (s: nat)
    requires Good(j) && Kraft(j.lens, j.top) == Pow2(j.top) && j.root + c < j.top && p < Pow2(j.root)
    requires Straddles(j, p, c)
    ensures Under(j, p, s) && j.lens[s] > j.root + c
  {
    hide Kraft, Occupied, Shr, Pow2, CodeOf;
    var m := j.root + c;
    var v := Occupied(j.lens, m);
    var d := j.top - m;
    var x := v * Pow2(d);
    OccupiedIsKraft(j.lens, j.top);
    InsideAll(v, p, j.root, c, d);
    ShrNone(x);
    var n := FindLength(j, x, j.top);
    ShrUp(v, d, 0);
    ShrNone(v);
    assert Shr(x, j.top - m) == v;
    assert n > m;
    s := FindSymbol(j.lens, x, n, j.top);
    ShrAdd(x, j.top - n, n - j.root);
    ShrUp(v, d, c);
    assert j.top - n + (n - j.root) == d + c;
    ShrBetween(v, p, c);
  }

  lemma InsideAll(v: nat, p: nat, root: nat, c: nat, d: nat)
    requires p < Pow2(root) && v < (p + 1) * Pow2(c)
    ensures v * Pow2(d) < Pow2(root + c + d)
  {
    hide Pow2;
    Pow2Add(root, c);
    Pow2Add(root + c, d);
    PowPositive(c);
    PowPositive(d);
    TimesMonotone(p + 1, Pow2(root), Pow2(c));
    TimesLess(v, Pow2(root) * Pow2(c), Pow2(d));
  }

  lemma TimesMonotone(a: nat, b: nat, c: nat)
    requires a <= b
    ensures a * c <= b * c
  {
  }

  lemma TimesLess(a: nat, b: nat, c: nat)
    requires a < b && c > 0
    ensures a * c < b * c
  {
  }

  lemma {:induction false} ShrBetween(v: nat, p: nat, c: nat)
    requires p * Pow2(c) <= v < (p + 1) * Pow2(c)
    ensures Shr(v, c) == p
  {
    if c > 0 {
      DoubleProduct(p, Pow2(c - 1));
      DoubleProduct(p + 1, Pow2(c - 1));
      ShrBetween(v / 2, p, c - 1);
    }
  }

  lemma PreBelow(j: Job, s: nat)
    requires Good(j) && Coded(j, s) && j.lens[s] > j.root
    ensures Pre(j, s) < Pow2(j.root)
  {
    hide Kraft, CodeOf, Shr, Pow2;
    CodeFits(j.lens, j.top, s);
    ShrFits(CodeOf(j.lens, s), j.root, j.lens[s] - j.root);
  }

  /** Where the look-ahead of a complete code stops is the longest length under the root prefix. */
  lemma LookAheadExact(j: Job, s: nat, c: nat)
    requires Good(j) && Kraft(j.lens, j.top) == Pow2(j.top) && Coded(j, s) && j.root < j.lens[s] <= j.root + c <= j.top
    requires WideEnough(j, Pre(j, s), c)
    requires j.root + c == j.lens[s] || (c > 0 && Straddles(j, Pre(j, s), c - 1))
    ensures Reach(j, Pre(j, s), |j.lens|) == j.root + c && SubSlots(j, Pre(j, s)) == Pow2(c)
  {
    hide Kraft, Occupied, Pow2, CodeOf, Shr, Reach;
    var p := Pre(j, s);
    PreBelow(j, s);
    ReachBounds(j, p, |j.lens|);
    assert Under(j, p, s);
    if j.root + c > j.lens[s] {
      var o := Deeper(j, p, c - 1);
    }
  }

  // ---- the order the code builds them in ----

  /** The room taken when symbol `s` is about to be entered. */
  function SoFar(j: Job, s: nat): nat
    requires Coded(j, s)
  {
    if j.lens[s] <= j.root then Pow2(j.root) else Pow2(j.root) + SubTotal(j, Pre(j, s) + 1)
  }

  lemma {:induction false} SubTotalGap(j: Job, a: nat, b: nat)
    requires a <= b && forall s :: Coded(j, s) && j.lens[s] > j.root ==> !(a <= Pre(j, s) < b)
    ensures SubTotal(j, b) == SubTotal(j, a)
  {
    hide Reach, Pre;
    if a < b {
      SubTotalGap(j, a, b - 1);
      ReachBounds(j, b - 1, |j.lens|);
    }
  }

  lemma {:induction false} SubTotalGrows(j: Job, a: nat, b: nat)
    requires a <= b
    ensures SubTotal(j, a) <= SubTotal(j, b)
  {
    if a < b {
      SubTotalGrows(j, a, b - 1);
    }
  }

  lemma SoFarBelowTotal(j: Job, s: nat)
    requires Good(j) && Coded(j, s)
    ensures SoFar(j, s) <= Total(j)
  {
    hide Pow2, SubTotal, Pre, Kraft;
    if j.lens[s] > j.root {
      PreBelow(j, s);
      SubTotalGrows(j, Pre(j, s) + 1, Pow2(j.root));
    }
  }

  /** No code lies between two neighbours in canonical order. */
  lemma Neighbours(j: Job, work: seq<nat>, k: nat, s: nat)
    requires Good(j) && Sorted(j.lens, work) && k < |work| && Coded(j, s) && j.lens[s] > j.root
    ensures j.lens[work[k]] > j.root ==>
      || Pre(j, s) <= Pre(j, work[k])
      || (k + 1 < |work| && j.lens[work[k + 1]] > j.root && Pre(j, s) >= Pre(j, work[k + 1]))
    ensures j.lens[work[k]] <= j.root ==>
      k + 1 < |work| && (j.lens[work[k + 1]] > j.root ==> Pre(j, s) >= Pre(j, work[k + 1]))
  {
    hide Kraft, Pre, LastToFirst, Below;
    var i := Listed(j.lens, work, s);
    RankOrder(j, work, i, k);
    if i <= k {
      if j.lens[work[k]] > j.root {
        PreMonotone(j, s, work[k]);
      }
    } else {
      RankOrder(j, work, k + 1, i);
      if j.lens[work[k + 1]] > j.root {
        PreMonotone(j, work[k + 1], s);
      } else {
        RankOrder(j, work, k, k + 1);
      }
    }
  }

  lemma RankOrder(j: Job, work: seq<nat>, i: nat, k: nat)
    requires Sorted(j.lens, work) && i < |work| && k < |work|
    ensures Coded(j, work[i]) && Coded(j, work[k])
    ensures i <= k ==>
      LastToFirst(j.lens, work[i]) <= LastToFirst(j.lens, work[k]) && j.lens[work[i]] <= j.lens[work[k]]
    ensures i >= k ==> j.lens[work[i]] >= j.lens[work[k]]
  {
    hide Below, LastToFirst;
    if i < k {
      WorkOrder(j.lens, work, i, k);
    } else if k < i {
      WorkOrder(j.lens, work, k, i);
    }
  }

  /** From one symbol to the next: no more room, or that of the next symbol's sub-table. */
  lemma NextSoFar(j: Job, work: seq<nat>, k: nat)
    requires Good(j) && Sorted(j.lens, work) && k + 1 < |work|
    ensures Coded(j, work[k]) && Coded(j, work[k + 1])
    ensures SoFar(j, work[k + 1]) == SoFar(j, work[k])
      + if j.lens[work[k + 1]] <= j.root || (j.lens[work[k]] > j.root && Pre(j, work[k]) == Pre(j, work[k + 1])) then 0
        else SubSlots(j, Pre(j, work[k + 1]))
  {
    hide Kraft, Pre, LastToFirst, Below, SubSlots, Pow2;
    var q, n := work[k], work[k + 1];
    RankOrder(j, work, k, k + 1);
    if j.lens[n] > j.root {
      var from := if j.lens[q] > j.root then Pre(j, q) + 1 else 0;
      if from <= Pre(j, n) {
        forall s | Coded(j, s) && j.lens[s] > j.root
          ensures !(from <= Pre(j, s) < Pre(j, n))
        {
          Neighbours(j, work, k, s);
        }
        SubTotalGap(j, from, Pre(j, n));
      } else {
        PreMonotone(j, q, n);
      }
    }
  }

  /** After the last symbol all the room is taken. */
  lemma LastSoFar(j: Job, work: seq<nat>)
    requires Good(j) && Sorted(j.lens, work) && work != []
    ensures Coded(j, work[|work| - 1]) && SoFar(j, work[|work| - 1]) == Total(j)
  {
    hide Kraft, Pre, LastToFirst, Below, Pow2, SubTotal;
    var k := |work| - 1;
    RankOrder(j, work, k, k);
    var from := if j.lens[work[k]] > j.root then Pre(j, work[k]) + 1 else 0;
    if j.lens[work[k]] > j.root {
      PreBelow(j, work[k]);
    }
    forall s | Coded(j, s) && j.lens[s] > j.root
      ensures !(from <= Pre(j, s) < Pow2(j.root))
    {
      Neighbours(j, work, k, s);
    }
    SubTotalGap(j, from, Pow2(j.root));
    NoSubTotal(j);
  }

  lemma NoSubTotal(j: Job)
    ensures SubTotal(j, 0) == 0
  {
  }
}
