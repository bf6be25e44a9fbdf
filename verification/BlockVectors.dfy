/** The two representations of T in decompress.c: the packed FAST vector and the SMALL cycle-reversed one. */
module BlockVectors {
  import opened Base
  import opened Radix
  import opened InverseBwt

  // ---- cftab ----

  ghost predicate Cumulative(l: seq<byte>, cftab: seq<int>) {
    |cftab| == 257 && forall c :: 0 <= c <= 256 ==> cftab[c] == Below(l, c)
  }

  /** Cumulative counts from unzftab. */
  method MakeCftab(unzftab: seq<int>, ghost l: seq<byte>) returns (cftab: array<int>)
    requires |unzftab| == 256 && forall c :: 0 <= c < 256 ==> unzftab[c] == multiset(l)[c]
    ensures fresh(cftab) && Cumulative(l, cftab[..])
  {
    hide Below;
    NothingBelow(l);
    cftab := new int[257](_ => 0);
    var i := 1;
    while i <= 256
      invariant 1 <= i <= 257
      invariant forall c :: 0 <= c < i ==> cftab[c] == Below(l, c)
    {
      BelowStep(l, i - 1);
      cftab[i] := unzftab[i - 1] + cftab[i - 1];
      i := i + 1;
    }
  }

  /** The decoder's range check on unzftab: genuine counts always pass. */
  method CheckUnzftab(unzftab: seq<int>, nblock: nat, ghost l: seq<byte>) returns (ok: bool)
    requires nblock == |l| && |unzftab| == 256 && forall c :: 0 <= c < 256 ==> unzftab[c] == multiset(l)[c]
    ensures ok
  {
    ok := true;
    var i := 0;
    while i <= 255
      invariant 0 <= i <= 256 && ok
    {
      CountAtMost(l, i);
      if unzftab[i] < 0 || unzftab[i] > nblock {
        ok := false;
      }
      i := i + 1;
    }
  }

  lemma CountAtMost(l: seq<byte>, c: int)
    ensures multiset(l)[c] <= |l|
  {
    var m := multiset(l);
    assert |m| == |m[c := 0]| + m[c];
  }

  /** The decoder's sanity checks on cftab: genuine counts always pass. */
  method CheckCftab(cftab: seq<int>, nblock: nat, ghost l: seq<byte>) returns (ok: bool)
    requires nblock == |l| && Cumulative(l, cftab)
    ensures ok
  {
    BelowAll(l);
    ok := true;
    var i := 0;
    while i <= 256
      invariant 0 <= i <= 257 && ok
    {
      BelowMonotone(l, i, 256);
      BelowMonotone(l, if i == 0 then 0 else i - 1, i);
      if cftab[i] < 0 || cftab[i] > nblock {
        ok := false;
      }
      if i > 0 && cftab[i - 1] > cftab[i] {
        ok := false;
      }
      i := i + 1;
    }
  }

  /** cftab[c] once the first `i` rows were entered: where the next row ending in `c` goes. */
  ghost predicate Cursor(l: seq<byte>, i: nat, cftab: seq<int>) {
    && |cftab| == 257 && i <= |l|
    && forall c :: 0 <= c < 256 ==> cftab[c] == Below(l, c) + multiset(l[..i])[c]
  }

  lemma CursorStart(l: seq<byte>, cftab: seq<int>)
    requires Cumulative(l, cftab)
    ensures Cursor(l, 0, cftab)
  {
    assert l[..0] == [];
  }

  lemma CursorStep(l: seq<byte>, i: nat, cftab: seq<int>)
    requires Cursor(l, i, cftab) && i < |l|
    ensures var c: int := l[i]; cftab[c] == LastToFirst(l, i) && Cursor(l, i + 1, cftab[c := cftab[c] + 1])
  {
    assert l[..i + 1] == l[..i] + [l[i]];
  }

  // ---- FAST: tt[k] = last column in the low byte, T above it ----

  function Pack(c: byte, i: nat): nat {
    c + 256 * i
  }

  /** tt[p] |= (i << 8) on a word whose upper bits are still clear. */
  function OrAbove(w: nat, i: nat): nat
    requires w < 256
  {
    w + 256 * i
  }

  ghost predicate FastHolds(l: seq<byte>, t: seq<int>, tt: seq<int>) {
    && |t| == |l| <= |tt|
    && forall k :: 0 <= k < |l| ==> t[k] >= 0 && tt[k] == Pack(l[k], t[k])
  }

  lemma {:induction false} SlotStillClear(l: seq<byte>, m: nat, i: nat)
    requires m <= i < |l|
    ensures TVector(l, m)[LastToFirst(l, i)] == 0
  {
    if m > 0 {
      LastToFirstOrder(l, m - 1, i);
      LastToFirstOrder(l, i, m - 1);
      SlotStillClear(l, m - 1, i);
    }
  }

  lemma FastStart(l: seq<byte>, w: seq<int>)
    requires l <= w
    ensures FastHolds(l, TVector(l, 0), w)
  {
  }

  method BuildFast(tt: array<int>, cftab: array<int>, nblock: nat, ghost l: seq<byte>)
    requires tt != cftab && nblock == |l| <= tt.Length && Cumulative(l, cftab[..])
    requires l <= tt[..]
    modifies tt, cftab
    ensures FastHolds(l, TVector(l, |l|), tt[..])
  {
    hide Cursor, FastHolds, TVector, Cumulative;
    CursorStart(l, cftab[..]);
    FastStart(l, tt[..]);
    var i := 0;
    while i < nblock
      invariant 0 <= i <= nblock && Cursor(l, i, cftab[..]) && FastHolds(l, TVector(l, i), tt[..])
    {
      EnterFast(tt, cftab, i, l);
      i := i + 1;
    }
  }

  lemma FastStep(l: seq<byte>, i: nat, w: seq<int>)
    requires i < |l| && FastHolds(l, TVector(l, i), w)
    ensures w[i] % 256 == l[i]
    ensures var k := LastToFirst(l, i); w[k] == l[k] && FastHolds(l, TVector(l, i + 1), w[k := OrAbove(w[k], i)])
  {
    var k := LastToFirst(l, i);
    SlotStillClear(l, i, i);
    assert w[i] == Pack(l[i], TVector(l, i)[i]) && w[k] == Pack(l[k], TVector(l, i)[k]);
    assert TVector(l, i + 1) == TVector(l, i)[k := i];
  }

  method EnterFast(tt: array<int>, cftab: array<int>, i: nat, ghost l: seq<byte>)
    requires tt != cftab && i < |l| && Cursor(l, i, cftab[..]) && FastHolds(l, TVector(l, i), tt[..])
    modifies tt, cftab
    ensures Cursor(l, i + 1, cftab[..]) && FastHolds(l, TVector(l, i + 1), tt[..])
  {
    ghost var f, w := cftab[..], tt[..];
    CursorStep(l, i, f);
    FastStep(l, i, w);
    var uc: int := tt[i] % 256;
    var k := cftab[uc];
    tt[k] := OrAbove(tt[k], i);
    cftab[uc] := k + 1;
    assert cftab[..] == f[uc := k + 1] && tt[..] == w[k := OrAbove(w[k], i)];
  }

  lemma TVectorInverts(l: seq<byte>)
    ensures InverseVector(l, TVector(l, |l|)) && IsPermutation(TVector(l, |l|))
    ensures forall k :: 0 <= k < |l| ==> LastToFirst(l, TVector(l, |l|)[k]) == k
  {
    forall i | 0 <= i < |l|
      ensures TVector(l, |l|)[LastToFirst(l, i)] == i
    {
      TVectorAt(l, |l|, i);
    }
    InverseBothWays(l, TVector(l, |l|));
  }

  // ---- SMALL: 20-bit cells split over ll16 and ll4 ----

  function GetLL4(ll4: seq<int>, i: nat): int
    requires i / 2 < |ll4|
  {
    if i % 2 == 0 then ll4[i / 2] % 16 else ll4[i / 2] / 16
  }

  function GetLL(ll16: seq<int>, ll4: seq<int>, i: nat): int
    requires i < |ll16| && i / 2 < |ll4|
  {
    ll16[i] + 65536 * GetLL4(ll4, i)
  }

  ghost predicate CellsOk(ll16: seq<int>, ll4: seq<int>, n: nat) {
    && n <= |ll16| && n <= 2 * |ll4|
    && (forall k :: 0 <= k < n ==> 0 <= ll16[k] < 65536)
    && (forall k :: 0 <= k < |ll4| ==> 0 <= ll4[k] < 256)
  }

  ghost function Cells(ll16: seq<int>, ll4: seq<int>, n: nat): (s: seq<int>)
    requires CellsOk(ll16, ll4, n)
    ensures |s| == n && forall i :: 0 <= i < n ==> s[i] == GetLL(ll16, ll4, i)
  {
    seq(n, i requires 0 <= i < n => GetLL(ll16, ll4, i))
  }

  lemma NibbleStored(w: seq<int>, i: nat, v: nat, k: nat)
    requires i / 2 < |w| && k / 2 < |w| && v < 16 && forall j :: 0 <= j < |w| ==> 0 <= w[j] < 256
    ensures var x := w[i / 2]; var y := if i % 2 == 0 then x - x % 16 + v else x % 16 + 16 * v;
            0 <= y < 256 && GetLL4(w[i / 2 := y], k) == if k == i then v else GetLL4(w, k)
  {
    if k / 2 == i / 2 && k != i {
      assert k % 2 != i % 2;
    }
  }

  /** SET_LL: store a 20-bit value in cell `i`, leaving every other cell alone. */
  method SetLL(ll16: array<int>, ll4: array<int>, i: nat, v: nat, ghost n: nat)
    requires ll16 != ll4 && CellsOk(ll16[..], ll4[..], n) && i < n && v < 1048576
    modifies ll16, ll4
    ensures CellsOk(ll16[..], ll4[..], n) && Cells(ll16[..], ll4[..], n) == old(Cells(ll16[..], ll4[..], n))[i := v]
    ensures ll16[..] == old(ll16[..])[i := v % 65536]
  {
    ghost var lo, hi := ll16[..], ll4[..];
    var w := v / 65536;
    ll16[i] := v % 65536;
    var x := ll4[i / 2];
    ll4[i / 2] := if i % 2 == 0 then x - x % 16 + w else x % 16 + 16 * w;
    StoredCells(lo, hi, i, v, n);
    assert ll16[..] == lo[i := v % 65536];
    assert ll4[..] == hi[i / 2 := if i % 2 == 0 then x - x % 16 + w else x % 16 + 16 * w];
  }

  lemma StoredCells(lo: seq<int>, hi: seq<int>, i: nat, v: nat, n: nat)
    requires CellsOk(lo, hi, n) && i < n && v < 1048576
    ensures var x := hi[i / 2];
            var y := if i % 2 == 0 then x - x % 16 + v / 65536 else x % 16 + 16 * (v / 65536);
            && CellsOk(lo[i := v % 65536], hi[i / 2 := y], n)
            && Cells(lo[i := v % 65536], hi[i / 2 := y], n) == Cells(lo, hi, n)[i := v]
  {
    var x := hi[i / 2];
    var y := if i % 2 == 0 then x - x % 16 + v / 65536 else x % 16 + 16 * (v / 65536);
    NibbleStored(hi, i, v / 65536, i);
    var lo', hi' := lo[i := v % 65536], hi[i / 2 := y];
    forall k | 0 <= k < n
      ensures GetLL(lo', hi', k) == if k == i then v else GetLL(lo, hi, k)
    {
      NibbleStored(hi, i, v / 65536, k);
    }
  }

  /** Cells below `i` hold the last-to-first map; from `i` on, ll16 still holds the last column. */
  ghost predicate SmallFilled(l: seq<byte>, i: nat, ll16: seq<int>, ll4: seq<int>) {
    && CellsOk(ll16, ll4, |l|) && i <= |l|
    && (forall k :: 0 <= k < i ==> GetLL(ll16, ll4, k) == LastToFirst(l, k))
    && (forall k :: i <= k < |l| ==> ll16[k] == l[k])
  }

  method EnterSmall(ll16: array<int>, ll4: array<int>, cftabCopy: array<int>, i: nat, ghost l: seq<byte>)
    requires ll16 != ll4 && ll16 != cftabCopy && ll4 != cftabCopy && i < |l| <= 900000
    requires Cursor(l, i, cftabCopy[..]) && SmallFilled(l, i, ll16[..], ll4[..])
    modifies ll16, ll4, cftabCopy
    ensures Cursor(l, i + 1, cftabCopy[..]) && SmallFilled(l, i + 1, ll16[..], ll4[..])
  {
    ghost var f, lo, hi := cftabCopy[..], ll16[..], ll4[..];
    CursorStep(l, i, f);
    var uc: int := ll16[i] % 256;
    assert uc == l[i];
    var k := cftabCopy[uc];
    SetLL(ll16, ll4, i, k, |l|);
    SmallStep(l, i, lo, hi, ll16[..], ll4[..], k % 65536);
    cftabCopy[uc] := k + 1;
    assert cftabCopy[..] == f[uc := k + 1];
  }

  method BuildSmall(ll16: array<int>, ll4: array<int>, cftabCopy: array<int>, nblock: nat, ghost l: seq<byte>)
    requires ll16 != ll4 && ll16 != cftabCopy && ll4 != cftabCopy && nblock == |l| <= 900000
    requires CellsOk(ll16[..], ll4[..], |l|) && l <= ll16[..] && Cumulative(l, cftabCopy[..])
    modifies ll16, ll4, cftabCopy
    ensures CellsOk(ll16[..], ll4[..], |l|)
    ensures forall k :: 0 <= k < |l| ==> Cells(ll16[..], ll4[..], |l|)[k] == LastToFirst(l, k)
  {
    CursorStart(l, cftabCopy[..]);
    var i := 0;
    while i < nblock
      invariant 0 <= i <= nblock && Cursor(l, i, cftabCopy[..]) && SmallFilled(l, i, ll16[..], ll4[..])
    {
      EnterSmall(ll16, ll4, cftabCopy, i, l);
      i := i + 1;
    }
  }

  lemma SmallStep(l: seq<byte>, i: nat, lo: seq<int>, hi: seq<int>, lo': seq<int>, hi': seq<int>, v: int)
    requires SmallFilled(l, i, lo, hi) && i < |l| && CellsOk(lo', hi', |l|)
    requires Cells(lo', hi', |l|) == Cells(lo, hi, |l|)[i := LastToFirst(l, i)]
    requires lo' == lo[i := v]
    ensures SmallFilled(l, i + 1, lo', hi')
  {
    forall k | 0 <= k < i + 1
      ensures GetLL(lo', hi', k) == LastToFirst(l, k)
    {
      assert Cells(lo', hi', |l|)[k] == GetLL(lo', hi', k);
      assert k < i ==> Cells(lo, hi, |l|)[k] == GetLL(lo, hi, k);
    }
  }

  // ---- SMALL: pointer reversal along the cycle through origPtr ----

  /** `path` follows the last-to-first map from `o` without repeating a row. */
  ghost predicate FollowsMap(l: seq<byte>, o: nat, path: seq<int>) {
    && path != [] && path[0] == o
    && (forall k :: 0 <= k < |path| ==> 0 <= path[k] < |l|)
    && (forall j, k :: 0 <= j < k < |path| ==> path[j] != path[k])
    && (forall k :: 0 < k < |path| ==> path[k] == LastToFirst(l, path[k - 1]))
  }

  /** The links into `path` behind its first row are reversed, all others intact. */
  ghost predicate Reversing(l: seq<byte>, o: nat, path: seq<int>, ll: seq<int>) {
    && |ll| == |l| && FollowsMap(l, o, path)
    && (forall k :: 0 < k < |path| ==> ll[path[k]] == path[k - 1])
    && (forall x :: 0 <= x < |l| && x !in path[1..] ==> ll[x] == LastToFirst(l, x))
  }

  /** The next row is either new or closes the cycle at `o`. */
  lemma NextOnPath(l: seq<byte>, o: nat, path: seq<int>, ll: seq<int>)
    requires Reversing(l, o, path, ll)
    ensures var j := LastToFirst(l, path[|path| - 1]);
      j !in path[1..] && ll[j] == LastToFirst(l, j) && (j in path ==> j == o)
  {
    var i := path[|path| - 1];
    var j := LastToFirst(l, i);
    forall k | 0 < k < |path|
      ensures path[k] != j
    {
      LastToFirstOrder(l, path[k - 1], i);
      LastToFirstOrder(l, i, path[k - 1]);
    }
    assert forall k :: 0 <= k < |path[1..]| ==> path[1..][k] == path[k + 1];
    if j in path {
      var k :| 0 <= k < |path| && path[k] == j;
    }
  }

  lemma ExtendFollows(l: seq<byte>, o: nat, path: seq<int>, j: int)
    requires FollowsMap(l, o, path) && j !in path && j == LastToFirst(l, path[|path| - 1])
    ensures FollowsMap(l, o, path + [j])
  {
    hide LastToFirst;
    assert forall k :: 0 <= k < |path| ==> path[k] in path;
  }

  lemma ExtendPath(l: seq<byte>, o: nat, path: seq<int>, ll: seq<int>, j: int)
    requires Reversing(l, o, path, ll) && j !in path && j == LastToFirst(l, path[|path| - 1])
    ensures Reversing(l, o, path + [j], ll[j := path[|path| - 1]])
  {
    ExtendFollows(l, o, path, j);
    var path', ll' := path + [j], ll[j := path[|path| - 1]];
    forall k | 0 < k < |path'|
      ensures ll'[path'[k]] == path'[k - 1]
    {
      if k < |path| {
        assert path[k] in path;
      }
    }
    assert path'[1..] == path[1..] + [j];
    forall x | 0 <= x < |l| && x !in path'[1..]
      ensures ll'[x] == LastToFirst(l, x)
    {
      assert x !in path[1..] && x != j;
    }
  }

  /** The finished structure: a reversed cycle closed at `o`. */
  ghost predicate Reversed(l: seq<byte>, o: nat, path: seq<int>, ll: seq<int>) {
    && |ll| == |l| && path != [] && path[0] == o && o < |l|
    && (forall k :: 0 <= k < |path| ==> 0 <= path[k] < |l|)
    && LastToFirst(l, path[|path| - 1]) == o && ll[o] == path[|path| - 1]
    && (forall k :: 0 < k < |path| ==> path[k] == LastToFirst(l, path[k - 1]) && ll[path[k]] == path[k - 1])
  }

  method ReverseCycle(ll16: array<int>, ll4: array<int>, origPtr: nat, ghost l: seq<byte>)
    returns (ghost path: seq<int>)
    requires ll16 != ll4 && origPtr < |l| <= 900000 && CellsOk(ll16[..], ll4[..], |l|)
    requires forall k :: 0 <= k < |l| ==> Cells(ll16[..], ll4[..], |l|)[k] == LastToFirst(l, k)
    modifies ll16, ll4
    ensures CellsOk(ll16[..], ll4[..], |l|) && Reversed(l, origPtr, path, Cells(ll16[..], ll4[..], |l|))
  {
    var i := origPtr;
    var j := GetLL(ll16[..], ll4[..], i);
    path := [i];
    while j != origPtr
      invariant CellsOk(ll16[..], ll4[..], |l|) && Reversing(l, origPtr, path, Cells(ll16[..], ll4[..], |l|))
      invariant i == path[|path| - 1] && j == LastToFirst(l, i)
      decreases |l| - |path|
    {
      ghost var ll := Cells(ll16[..], ll4[..], |l|);
      NextOnPath(l, origPtr, path, ll);
      var tmp := GetLL(ll16[..], ll4[..], j);
      assert tmp == ll[j];
      SetLL(ll16, ll4, j, i, |l|);
      ExtendPath(l, origPtr, path, ll, j);
      path := path + [j];
      DistinctBounded(path, |l|);
      i, j := j, tmp;
    }
    SetLL(ll16, ll4, j, i, |l|);
  }

  /** On the cycle through `o` the reversed links are T, and T never leaves the cycle. */
  lemma LinkIsT(l: seq<byte>, o: nat, path: seq<int>, ll: seq<int>, t: seq<int>, q: int)
    requires Reversed(l, o, path, ll) && InverseVector(l, t) && q in path
    ensures 0 <= q < |l| && ll[q] == t[q] && t[q] in path
  {
    var m :| 0 <= m < |path| && path[m] == q;
    if m > 0 {
      assert t[LastToFirst(l, path[m - 1])] == path[m - 1];
    }
  }

  lemma {:induction false} CycleWalk(l: seq<byte>, o: nat, path: seq<int>, ll: seq<int>, t: seq<int>, k: nat)
    requires Reversed(l, o, path, ll) && InverseVector(l, t) && SelfMap(t)
    ensures Walk(t, o, k) in path && ll[Walk(t, o, k)] == Walk(t, o, k + 1)
  {
    if k > 0 {
      CycleWalk(l, o, path, ll, t, k - 1);
      LinkIsT(l, o, path, ll, t, Walk(t, o, k - 1));
    } else {
      assert path[0] == o;
    }
    LinkIsT(l, o, path, ll, t, Walk(t, o, k));
  }

  /** BZ2_indexIntoF: the first-column character at a position, by bisection of cftab. */
  method IndexIntoF(indx: nat, cftab: seq<int>, ghost l: seq<byte>) returns (nb: nat)
    requires indx < |l| && Cumulative(l, cftab)
    ensures InBucket(l, nb, indx)
  {
    BelowAll(l);
    nb := 0;
    var na := 256;
    while na - nb != 1
      invariant 0 <= nb < na <= 256
      invariant cftab[nb] <= indx < cftab[na]
      decreases na - nb
    {
      var mid := (nb + na) / 2;
      if indx >= cftab[mid] {
        nb := mid;
      } else {
        na := mid;
      }
    }
  }

  /** The first column at `q` is the last column at T[q]. */
  lemma FirstColumnIsLast(l: seq<byte>, t: seq<int>, q: nat, c: nat)
    requires InverseVector(l, t) && q < |l| && InBucket(l, c, q)
    ensures 0 <= t[q] < |l| && c == l[t[q]]
  {
    InverseBothWays(l, t);
    assert InBucket(l, l[t[q]], q);
    BucketsOrdered(l, c, q, l[t[q]], q);
    BucketsOrdered(l, l[t[q]], q, c, q);
  }
}
