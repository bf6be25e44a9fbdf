/** inflate_table, continued: how long codes share sub-tables, and the loop over all codes. */
module SubTables {
  import opened Base
  import opened BitString
  import opened Radix
  import opened InverseBwt
  import opened CanonicalCode
  import opened LsbCode
  import opened InflateTable

  // ---- root prefixes, as numbers ----

  lemma {:induction false} ShrAdd(v: nat, a: nat, b: nat)
    ensures Shr(Shr(v, a), b) == Shr(v, a + b)
    decreases a
  {
    if a > 0 {
      ShrAdd(v / 2, a - 1, b);
      assert a - 1 + b == a + b - 1;
    }
  }

  lemma {:induction false} ShrMonotone(v: nat, w: nat, d: nat)
    requires v <= w
    ensures Shr(v, d) <= Shr(w, d)
  {
    if d > 0 {
      ShrMonotone(v / 2, w / 2, d - 1);
    }
  }

  /** The first `root` bits of a long code, as a number. */
  function Pre(j: Job, s: nat): nat
    requires s < |j.lens| && j.lens[s] >= j.root
  {
    Shr(CodeOf(j.lens, s), j.lens[s] - j.root)
  }

  lemma SameString(a: Bits, b: Bits)
    requires |a| == |b|
    ensures LsbNat(a) == LsbNat(b) <==> ToNat(a) == ToNat(b)
  {
    hide LsbNat, ToNat;
    if LsbNat(a) == LsbNat(b) {
      LsbInjective(a, b);
    }
    if ToNat(a) == ToNat(b) {
      NatRoundTrip(a);
      NatRoundTrip(b);
    }
  }

  /** Two long codes share a root slot exactly when they share their root prefix. */
  lemma SharedSlot(j: Job, s: nat, o: nat)
    requires Good(j) && Coded(j, s) && Coded(j, o) && j.lens[s] > j.root && j.lens[o] > j.root
    ensures RootOf(j, s) == RootOf(j, o) <==> Pre(j, s) == Pre(j, o)
  {
    hide LsbNat, ToNat, CodeBits, Pow2, Kraft, CodeOf, Shr;
    var a, b := CodeBits(j.lens, s), CodeBits(j.lens, o);
    LsbMod(a, j.root);
    LsbMod(b, j.root);
    CodePrefix(j.lens, j.top, s, j.root);
    CodePrefix(j.lens, j.top, o, j.root);
    SameString(a[..j.root], b[..j.root]);
  }

  /** In canonical order root prefixes never go back. */
  lemma PreMonotone(j: Job, s: nat, o: nat)
    requires Coded(j, s) && Coded(j, o) && j.lens[s] >= j.root && j.lens[o] >= j.root
    requires LastToFirst(j.lens, s) <= LastToFirst(j.lens, o)
    ensures Pre(j, s) <= Pre(j, o)
  {
    hide Shr, Occupied, Below;
    LastToFirstOrder(j.lens, o, s);
    var n: nat, m: nat := j.lens[s], j.lens[o];
    var v, w := CodeOf(j.lens, s), CodeOf(j.lens, o);
    if n == m {
      PermPlace(j.lens, s);
      PermPlace(j.lens, o);
      ShrMonotone(v, w, n - j.root);
    } else {
      CutBeyond(j.lens, o, n);
      CodeInRange(j.lens, s);
      ShrMonotone(v, Shr(w, m - n), n - j.root);
      ShrAdd(w, m - n, n - j.root);
    }
  }

  // ---- the size of a sub-table ----

  /** No code with root prefix `p` is too long for a sub-table of `curr` bits. */
  ghost predicate WideEnough(j: Job, p: nat, curr: nat) {
    forall s :: Coded(j, s) && j.lens[s] > j.root + curr ==> Pre(j, s) != p
  }

  /** Where the look-ahead may stop: at the longest length, or when the codes so far fill the sub-table. */
  lemma LookAhead(j: Job, p: nat, curr: nat)
    requires Good(j) && (j.root + curr >= j.top || Occupied(j.lens, j.root + curr) >= (p + 1) * Pow2(curr))
    ensures WideEnough(j, p, curr)
  {
    hide Occupied, CodeOf, Kraft, Shr, Pow2;
    var n := j.root + curr;
    forall s | Coded(j, s) && j.lens[s] > n
      ensures Pre(j, s) != p
    {
      CutBeyond(j.lens, s, n);
      var v := Shr(CodeOf(j.lens, s), j.lens[s] - n);
      ShrAtLeast(v, p + 1, curr);
      ShrAdd(CodeOf(j.lens, s), j.lens[s] - n, curr);
    }
  }

  lemma ShrStep(x: nat, e: nat)
    ensures Shr(x + 1, e) == Shr(x, e) || x + 1 == Shr(x + 1, e) * Pow2(e)
    decreases e
  {
    if e > 0 {
      if x % 2 == 0 {
        assert (x + 1) / 2 == x / 2;
      } else {
        assert (x + 1) / 2 == x / 2 + 1;
        ShrStep(x / 2, e - 1);
        DoubleProduct(Shr(x / 2 + 1, e - 1), Pow2(e - 1));
      }
    }
  }

  lemma {:induction false} ShrUp(v: nat, d: nat, e: nat)
    ensures Shr(v * Pow2(d), d + e) == Shr(v, e)
    decreases d
  {
    if d > 0 {
      DoubleProduct(v, Pow2(d - 1));
      ShrUp(v, d - 1, e);
      assert d - 1 + e == d + e - 1;
    }
  }

  /** The first code of a sub-table continues its root prefix with zeros. */
  lemma SubStart(j: Job, q: nat, n: nat)
    requires Coded(j, q) && Coded(j, n) && j.lens[n] > j.root && LastToFirst(j.lens, n) == LastToFirst(j.lens, q) + 1
    requires j.lens[q] > j.root ==> Pre(j, q) != Pre(j, n)
    ensures CodeOf(j.lens, n) == Pre(j, n) * Pow2(j.lens[n] - j.root)
  {
    hide CodeOf, Pow2, Shr;
    NextCode(j.lens, q, n);
    var v := CodeOf(j.lens, q) + 1;
    var d: nat, e := j.lens[n] - j.lens[q], j.lens[q] as int - j.root;
    if e <= 0 {
      ShrExact(v, d, j.lens[n] - j.root);
    } else {
      ShrUp(v, d, e);
      ShrStep(v - 1, e);
      assert d + e == j.lens[n] - j.root;
      Pow2Add(d, e);
      assert v == Shr(v, e) * Pow2(e);
      Reassociate(Shr(v, e), Pow2(e), Pow2(d));
    }
  }

  lemma Reassociate(a: nat, b: nat, c: nat)
    ensures a * b * c == a * (c * b)
  {
  }

  lemma ShrExact(v: nat, d: nat, m: nat)
    requires m <= d
    ensures v * Pow2(d) == Shr(v * Pow2(d), m) * Pow2(m)
  {
    hide Shr, Pow2;
    Pow2Add(d - m, m);
    Reassociate(v, Pow2(d - m), Pow2(m));
    Reassociate(v, Pow2(m), Pow2(d - m));
    var w := v * Pow2(d - m);
    assert v * Pow2(d) == w * Pow2(m);
    ShrUp(w, m, 0);
    ShrNone(w);
  }

  lemma ShrNone(v: nat)
    ensures Shr(v, 0) == v
  {
  }

  // ---- the symbols in canonical order ----

  ghost predicate Sorted(lens: seq<byte>, work: seq<nat>) {
    && |work| == |lens| - Below(lens, 1)
    && forall k :: 0 <= k < |work| ==>
      work[k] < |lens| && lens[work[k]] > 0 && LastToFirst(lens, work[k]) == Below(lens, 1) + k
  }

  lemma WorkOrder(lens: seq<byte>, work: seq<nat>, i: nat, k: nat)
    requires Sorted(lens, work) && i < k < |work|
    ensures work[i] != work[k] && lens[work[i]] <= lens[work[k]]
  {
    LastToFirstOrder(lens, work[i], work[k]);
  }

  /** Every symbol with a code is listed. */
  lemma Listed(lens: seq<byte>, work: seq<nat>, s: nat) returns (k: nat)
    requires Sorted(lens, work) && s < |lens| && lens[s] > 0
    ensures k < |work| && work[k] == s
  {
    hide Below;
    BelowMonotone(lens, 1, lens[s]);
    PermPlace(lens, s);
    k := LastToFirst(lens, s) - Below(lens, 1);
    LastToFirstOrder(lens, work[k], s);
    LastToFirstOrder(lens, s, work[k]);
  }

  // ---- the loop ----

  /** The symbols below `k` are in the table; with a current sub-table, all others end before it. */
  ghost predicate Entered(j: Job, work: seq<nat>, t: seq<Slot>, k: nat, b: Option<Sub>) {
    && Good(j) && Sorted(j.lens, work) && k <= |work| && Pow2(j.root) <= |t|
    && (forall i :: 0 <= i < k ==> Coded(j, work[i]) && Findable(j, t, work[i]))
    && match b
       case None => forall i :: 0 <= i < k ==> j.lens[work[i]] <= j.root
       case Some(sub) => Current(j, t, sub) && forall i :: 0 <= i < k ==> Before(j, t, sub, work[i])
  }

  /** Symbol `k` is about to be entered. */
  ghost predicate Ready(j: Job, work: seq<nat>, t: seq<Slot>, k: nat, b: Option<Sub>) {
    && Entered(j, work, t, k, b) && k < |work|
    && match b
       case None => j.lens[work[k]] <= j.root
       case Some(sub) =>
         j.lens[work[k]] > j.root && sub.low == RootOf(j, work[k]) && WideEnough(j, Pre(j, work[k]), sub.curr)
  }

  /** What entering symbol `s` writes. */
  ghost predicate Writes(j: Job, t: seq<Slot>, u: seq<Slot>, s: nat, b: Option<Sub>)
    requires Good(j) && Coded(j, s) && (b.Some? ==> j.lens[s] > j.root)
  {
    match b
    case None => Filled(t, u, 0, Pow2(j.root), Pow2(j.lens[s]), Key(j.lens, s), Leaf(j.ty, s, j.lens[s]))
    case Some(sub) => Filled(t, u, sub.next, Pow2(sub.curr), Pow2(SubLen(j, s)), SubKey(j, s),
        Leaf(j.ty, s, SubLen(j, s)))
  }

  lemma EnterRoot(j: Job, work: seq<nat>, t: seq<Slot>, u: seq<Slot>, k: nat)
    requires Ready(j, work, t, k, None) && Writes(j, t, u, work[k], None)
    ensures Entered(j, work, u, k + 1, None)
  {
    hide Key, Pow2, Kraft, Leaf, Findable, LastToFirst, Below, Filled;
    FilledLength(t, u, 0, Pow2(j.root), Pow2(j.lens[work[k]]), Key(j.lens, work[k]),
        Leaf(j.ty, work[k], j.lens[work[k]]));
    forall i | 0 <= i < k + 1
      ensures Coded(j, work[i]) && Findable(j, u, work[i])
    {
      RootFill(j, t, u, work[k], work[i]);
      if i < k {
        WorkOrder(j.lens, work, i, k);
      }
    }
  }

  lemma FilledLength(t: seq<Slot>, u: seq<Slot>, next: nat, size: nat, m: nat, r: nat, e: Slot)
    requires Filled(t, u, next, size, m, r, e)
    ensures |u| == |t|
  {
  }

  lemma FitsSub(j: Job, s: nat, curr: nat)
    requires Coded(j, s) && j.lens[s] > j.root && WideEnough(j, Pre(j, s), curr)
    ensures j.lens[s] <= j.root + curr
  {
    hide Shr, CodeOf;
  }

  lemma EnterSub(j: Job, work: seq<nat>, t: seq<Slot>, u: seq<Slot>, k: nat, sub: Sub)
    requires Ready(j, work, t, k, Some(sub)) && Writes(j, t, u, work[k], Some(sub))
    ensures Entered(j, work, u, k + 1, Some(sub))
  {
    hide Key, Pow2, Kraft, Leaf, Findable, LastToFirst, Below, Filled, RootOf, WideEnough, Pre, SubKey, Current, Before;
    var s := work[k];
    FitsSub(j, s, sub.curr);
    FilledLength(t, u, sub.next, Pow2(sub.curr), Pow2(SubLen(j, s)), SubKey(j, s), Leaf(j.ty, s, SubLen(j, s)));
    SubFillPlaces(j, t, u, sub, s);
    OwnSub(j, u, sub, s);
    forall i | 0 <= i < k + 1
      ensures Coded(j, work[i]) && Findable(j, u, work[i]) && Before(j, u, sub, work[i])
    {
      if i < k {
        WorkOrder(j.lens, work, i, k);
        SubFillKeeps(j, t, u, sub, s, work[i]);
      }
    }
  }

  lemma OwnSub(j: Job, t: seq<Slot>, sub: Sub, s: nat)
    requires Good(j) && Coded(j, s) && RootOf(j, s) == sub.low
    ensures Before(j, t, sub, s)
  {
  }

  /** The next symbol goes where the last one went. */
  lemma StayReady(j: Job, work: seq<nat>, t: seq<Slot>, k: nat, b: Option<Sub>)
    requires k > 0 && k < |work| && Entered(j, work, t, k, b)
    requires match b
             case None => j.lens[work[k]] <= j.root
             case Some(sub) => j.lens[work[k - 1]] > j.root && RootOf(j, work[k - 1]) == sub.low == RootOf(j, work[k])
                               && WideEnough(j, Pre(j, work[k - 1]), sub.curr)
    ensures Ready(j, work, t, k, b)
  {
    hide Key, Pow2, Kraft, Leaf, Findable, LastToFirst, Below, RootOf, WideEnough, Pre, Current, Before;
    WorkOrder(j.lens, work, k - 1, k);
    if b.Some? {
      SharedSlot(j, work[k - 1], work[k]);
    }
  }

  /** The first free slot after the current (sub-)table. */
  function Free(j: Job, b: Option<Sub>): nat {
    match b
    case None => Pow2(j.root)
    case Some(sub) => sub.next + Pow2(sub.curr)
  }

  /** No code entered so far shares the root slot of a code that starts a sub-table. */
  lemma NewSlot(j: Job, work: seq<nat>, k: nat, i: nat)
    requires Good(j) && Sorted(j.lens, work) && i < k < |work| && j.lens[work[i]] > j.root && j.lens[work[k]] > j.root
    requires j.lens[work[k - 1]] > j.root ==> RootOf(j, work[k - 1]) != RootOf(j, work[k])
    ensures RootOf(j, work[i]) != RootOf(j, work[k])
  {
    hide Key, Pow2, Kraft, LastToFirst, Below, RootOf, Pre;
    if i < k - 1 {
      WorkOrder(j.lens, work, i, k - 1);
    }
    SharedSlot(j, work[i], work[k]);
    SharedSlot(j, work[k - 1], work[k]);
    PreMonotone(j, work[i], work[k - 1]);
    PreMonotone(j, work[k - 1], work[k]);
  }

  lemma LinkBefore(j: Job, work: seq<nat>, t: seq<Slot>, k: nat, b: Option<Sub>, i: nat)
    requires Entered(j, work, t, k, b) && i < k && j.lens[work[i]] > j.root
    ensures RootOf(j, work[i]) < |t| && t[RootOf(j, work[i])].Entry?
    ensures t[RootOf(j, work[i])].val + Pow2(t[RootOf(j, work[i])].op) <= Free(j, b)
  {
    hide Key, Pow2, Kraft, Leaf, LastToFirst, Below, RootOf;
    assert Findable(j, t, work[i]);
  }

  /** A new sub-table behind everything so far. */
  lemma NewSub(j: Job, work: seq<nat>, t: seq<Slot>, k: nat, b: Option<Sub>, sub: Sub)
    requires 0 < k < |work| && Entered(j, work, t, k, b) && j.lens[work[k]] > j.root
    requires j.lens[work[k - 1]] > j.root ==> RootOf(j, work[k - 1]) != RootOf(j, work[k])
    requires sub.low == RootOf(j, work[k]) && sub.next == Free(j, b) && 1 <= sub.curr <= MAXBITS
    requires sub.next + Pow2(sub.curr) <= |t|
    requires WideEnough(j, Pre(j, work[k]), sub.curr)
    ensures sub.low < |t| && Ready(j, work, t[sub.low := Entry(sub.curr, j.root, sub.next)], k, Some(sub))
  {
    hide Key, Pow2, Kraft, Leaf, Findable, LastToFirst, Below, RootOf, WideEnough, Pre;
    var s, e := work[k], Entry(sub.curr, j.root, sub.next);
    RootOfBelow(j, s);
    FreeBeyondRoot(j, t, b);
    forall i | 0 <= i < k
      ensures Coded(j, work[i]) && Findable(j, t[sub.low := e], work[i]) && Before(j, t[sub.low := e], sub, work[i])
    {
      WorkOrder(j.lens, work, i, k);
      if j.lens[work[i]] > j.root {
        NewSlot(j, work, k, i);
        LinkBefore(j, work, t, k, b, i);
      }
      LinkKeeps(j, t, sub, s, work[i], e);
    }
  }

  lemma FreeBeyondRoot(j: Job, t: seq<Slot>, b: Option<Sub>)
    requires b.Some? ==> Current(j, t, b.value)
    ensures Pow2(j.root) <= Free(j, b)
  {
    hide Pow2;
  }
}
