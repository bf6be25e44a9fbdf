/** inflate_table as it runs: counting, checking, sorting, and filling the table in place. */
module InflateBuild {
  import opened Base
  import opened BitString
  import opened BitIO
  import opened Radix
  import opened InverseBwt
  import opened BlockVectors
  import opened CanonicalCode
  import opened LsbCode
  import opened InflateTable
  import opened SubTables
  import opened TableSize

  // ---- counts and bounds ----

  ghost predicate Tallied(count: seq<int>, lens: seq<byte>) {
    |count| == MAXBITS + 1 && forall n :: 0 <= n <= MAXBITS ==> count[n] == multiset(lens)[n]
  }

  method CountLens(lens: seq<byte>) returns (count: array<int>)
    requires forall s :: 0 <= s < |lens| ==> lens[s] <= MAXBITS
    ensures fresh(count) && Tallied(count[..], lens)
  {
    count := new int[MAXBITS + 1](_ => 0);
    var s := 0;
    while s < |lens|
      invariant 0 <= s <= |lens| && forall n :: 0 <= n <= MAXBITS ==> count[n] == multiset(lens[..s])[n]
    {
      assert lens[..s + 1] == lens[..s] + [lens[s]];
      count[lens[s]] := count[lens[s]] + 1;
      s := s + 1;
    }
    assert lens[..s] == lens;
  }

  /** The longest and the shortest length in use; zero if there is none. */
  method LengthBounds(count: seq<int>, lens: seq<byte>) returns (min: nat, max: nat)
    requires Tallied(count, lens) && forall s :: 0 <= s < |lens| ==> lens[s] <= MAXBITS
    ensures max <= MAXBITS && (forall s :: 0 <= s < |lens| ==> lens[s] <= max) && (max > 0 ==> max in multiset(lens))
    ensures max > 0 ==> 1 <= min <= max && min in multiset(lens)
    ensures max > 0 ==> forall s :: 0 <= s < |lens| && lens[s] > 0 ==> min <= lens[s]
  {
    max := MAXBITS;
    while max >= 1 && count[max] == 0
      invariant 0 <= max <= MAXBITS && forall s :: 0 <= s < |lens| ==> lens[s] <= max
    {
      assert max !in multiset(lens);
      forall s | 0 <= s < |lens|
        ensures lens[s] <= max - 1
      {
        assert lens[s] in multiset(lens);
      }
      max := max - 1;
    }
    min := 1;
    if max > 0 {
      while min < max && count[min] == 0
        invariant 1 <= min <= max && forall s :: 0 <= s < |lens| && lens[s] > 0 ==> min <= lens[s]
      {
        assert min !in multiset(lens);
        forall s | 0 <= s < |lens| && lens[s] > 0
          ensures min + 1 <= lens[s]
        {
          assert lens[s] in multiset(lens);
        }
        min := min + 1;
      }
    }
  }

  /** The strings still free after all lengths; negative as soon as some length is over-subscribed. */
  method StringsLeft(count: seq<int>, lens: seq<byte>) returns (left: int)
    requires Tallied(count, lens)
    ensures left < 0 <==> Kraft(lens, MAXBITS) > Pow2(MAXBITS)
    ensures left >= 0 ==> left == Pow2(MAXBITS) - Kraft(lens, MAXBITS)
  {
    hide Kraft, Pow2;
    left := 1;
    OccupiedIsKraft(lens, MAXBITS);
    PowOne();
    NoneOccupied(lens);
    var len := 1;
    while len <= MAXBITS
      invariant 1 <= len <= MAXBITS + 1 && left == Pow2(len - 1) - Occupied(lens, len - 1) && left >= 0
    {
      PowStep(len - 1);
      left := 2 * left - count[len];
      if left < 0 {
        TooMany(lens, len);
        return;
      }
      len := len + 1;
    }
  }

  lemma PowOne()
    ensures Pow2(0) == 1
  {
  }

  lemma TooMany(lens: seq<byte>, n: nat)
    requires n <= MAXBITS && Occupied(lens, n) > Pow2(n)
    ensures Occupied(lens, MAXBITS) > Pow2(MAXBITS)
  {
    hide Occupied, Pow2;
    var d := MAXBITS - n;
    OccupiedGrows(lens, n, d);
    Pow2Add(n, d);
    PowPositive(d);
    LargerProduct(Occupied(lens, n), Pow2(n), Pow2(d));
  }

  lemma LargerProduct(a: nat, b: nat, c: nat)
    requires a > b && c > 0
    ensures a * c > b * c
  {
    assert a * c == b * c + (a - b) * c;
  }

  // ---- sorting ----

  /** The symbols below `i` stand at their places, and offs says where the next of each length goes. */
  ghost predicate Sorting(lens: seq<byte>, work: seq<int>, offs: seq<int>, i: nat) {
    && i <= |lens| && |offs| == MAXBITS + 1 && |work| == |lens|
    && (forall n :: 1 <= n <= MAXBITS ==> offs[n] == Below(lens, n) - Below(lens, 1) + multiset(lens[..i])[n])
    && (forall s :: 0 <= s < i && lens[s] > 0 ==>
      Below(lens, 1) <= LastToFirst(lens, s) && work[LastToFirst(lens, s) - Below(lens, 1)] == s)
  }

  lemma PlaceAhead(lens: seq<byte>, s: nat)
    requires s < |lens| && lens[s] > 0
    ensures Below(lens, 1) <= LastToFirst(lens, s) == Below(lens, lens[s]) + multiset(lens[..s])[lens[s]] < |lens|
  {
    hide Below;
    PermPlace(lens, s);
    BelowMonotone(lens, 1, lens[s]);
  }

  lemma SortStep(lens: seq<byte>, work: seq<int>, offs: seq<int>, i: nat)
    requires i < |lens| && lens[i] <= MAXBITS && Sorting(lens, work, offs, i)
    ensures lens[i] == 0 ==> Sorting(lens, work, offs, i + 1)
    ensures lens[i] > 0 ==>
      0 <= offs[lens[i]] < |work| && Sorting(lens, work[offs[lens[i]] := i], offs[lens[i] := offs[lens[i]] + 1], i + 1)
  {
    hide Below, LastToFirst;
    assert lens[..i + 1] == lens[..i] + [lens[i]];
    if lens[i] > 0 {
      PlaceAhead(lens, i);
      forall s | 0 <= s < i && lens[s] > 0
        ensures LastToFirst(lens, s) != LastToFirst(lens, i)
      {
        LastToFirstOrder(lens, s, i);
        LastToFirstOrder(lens, i, s);
      }
    }
  }

  /** Each place after the symbols without a code holds the symbol that belongs there. */
  lemma PlaceHolds(lens: seq<byte>, work: seq<int>, offs: seq<int>, k: nat)
    requires |work| == |lens| && Sorting(lens, work, offs, |lens|) && Below(lens, 1) + k < |lens|
    ensures 0 <= work[k] < |lens| && lens[work[k]] > 0 && LastToFirst(lens, work[k]) == Below(lens, 1) + k
  {
    hide Below, LastToFirst, Sorting;
    var s := SymbolAt(lens, Below(lens, 1) + k);
    PastZeros(lens, s);
    SortedSymbol(lens, work, offs, s);
  }

  lemma SortedSymbol(lens: seq<byte>, work: seq<int>, offs: seq<int>, s: nat)
    requires s < |lens| && lens[s] > 0 && Sorting(lens, work, offs, |lens|)
    ensures |work| == |lens| && Below(lens, 1) <= LastToFirst(lens, s)
    ensures work[LastToFirst(lens, s) - Below(lens, 1)] == s
  {
    hide Below, LastToFirst;
  }

  /** Every position of the full order belongs to a symbol. */
  lemma SymbolAt(lens: seq<byte>, pos: nat) returns (s: nat)
    requires pos < |lens|
    ensures s < |lens| && LastToFirst(lens, s) == pos
  {
    hide LastToFirst, TVector;
    TVectorInverts(lens);
    s := TVector(lens, |lens|)[pos];
  }

  lemma SortingEnds(lens: seq<byte>, work: seq<int>, offs: seq<int>, w: seq<nat>)
    requires |work| == |lens| && Sorting(lens, work, offs, |lens|) && |w| == |lens| - Below(lens, 1)
    requires forall k :: 0 <= k < |w| ==> w[k] == work[k]
    ensures Sorted(lens, w)
  {
    hide Below, LastToFirst, Sorting;
    forall k | 0 <= k < |w|
      ensures w[k] < |lens| && lens[w[k]] > 0 && LastToFirst(lens, w[k]) == Below(lens, 1) + k
    {
      PlaceHolds(lens, work, offs, k);
    }
  }

  /** Symbols without a code come first in the full order. */
  lemma PastZeros(lens: seq<byte>, s: nat)
    requires s < |lens| && LastToFirst(lens, s) >= Below(lens, 1)
    ensures lens[s] > 0
  {
    PermPlace(lens, s);
  }

  lemma ZerosWithin(lens: seq<byte>)
    ensures Below(lens, 1) == multiset(lens)[0] <= |lens|
  {
    BelowAll(lens);
    BelowMonotone(lens, 1, 256);
    assert Below(lens, 1) == Below(lens, 0) + multiset(lens)[0];
  }

  method Offsets(count: seq<int>, lens: seq<byte>) returns (offs: array<int>)
    requires Tallied(count, lens)
    ensures fresh(offs) && offs.Length == MAXBITS + 1
    ensures forall n :: 1 <= n <= MAXBITS ==> offs[n] == Below(lens, n) - Below(lens, 1)
  {
    hide Below;
    offs := new int[MAXBITS + 1](_ => 0);
    var len := 1;
    while len < MAXBITS
      invariant 1 <= len <= MAXBITS && forall n :: 1 <= n <= len ==> offs[n] == Below(lens, n) - Below(lens, 1)
    {
      BelowStep(lens, len);
      offs[len + 1] := offs[len] + count[len];
      len := len + 1;
    }
  }

  /** work[offs[lens[s]]++] = s. */
  method SortOne(w: array<int>, offs: array<int>, lens: seq<byte>, s: nat)
    requires w != offs && s < |lens| && lens[s] <= MAXBITS && w.Length == |lens| && offs.Length == MAXBITS + 1
    requires Sorting(lens, w[..], offs[..], s)
    modifies w, offs
    ensures Sorting(lens, w[..], offs[..], s + 1)
  {
    hide Sorting;
    ghost var a, o := w[..], offs[..];
    SortStep(lens, a, o, s);
    if lens[s] != 0 {
      w[offs[lens[s]]] := s;
      offs[lens[s]] := offs[lens[s]] + 1;
      assert w[..] == a[o[lens[s]] := s] && offs[..] == o[lens[s] := o[lens[s]] + 1];
    }
  }

  lemma SortingStarts(lens: seq<byte>, work: seq<int>, offs: seq<int>)
    requires |offs| == MAXBITS + 1 && |work| == |lens|
    requires forall n :: 1 <= n <= MAXBITS ==> offs[n] == Below(lens, n) - Below(lens, 1)
    ensures Sorting(lens, work, offs, 0)
  {
    hide Below;
    assert lens[..0] == [];
  }

  method SortSymbols(count: seq<int>, lens: seq<byte>) returns (work: seq<nat>)
    requires Tallied(count, lens) && forall s :: 0 <= s < |lens| ==> lens[s] <= MAXBITS
    ensures Sorted(lens, work)
  {
    hide Below, LastToFirst, Sorted, Sorting;
    var offs := Offsets(count, lens);
    var w := new int[|lens|](_ => 0);
    SortingStarts(lens, w[..], offs[..]);
    var s := 0;
    while s < |lens|
      invariant 0 <= s <= |lens| && Sorting(lens, w[..], offs[..], s)
    {
      SortOne(w, offs, lens, s);
      s := s + 1;
    }
    ZerosWithin(lens);
    var n := |lens| - count[0];
    AllNats(lens, w[..], offs[..], n);
    work := w[..n];
    SortingEnds(lens, w[..], offs[..], work);
  }

  lemma AllNats(lens: seq<byte>, w: seq<int>, offs: seq<int>, n: nat)
    requires |w| == |lens| && Sorting(lens, w, offs, |lens|) && n == |lens| - Below(lens, 1)
    ensures forall k :: 0 <= k < n ==> w[k] >= 0
  {
    hide Below, LastToFirst, Sorting;
    forall k | 0 <= k < n
      ensures w[k] >= 0
    {
      PlaceHolds(lens, w, offs, k);
    }
  }

  // ---- filling ----

  /** The replication loop: every slot whose low index bits are `r`. */
  method FillEntry(table: array<Slot>, next: nat, curr: nat, m: nat, r: nat, e: Slot)
    requires m <= curr && r < Pow2(m) && next + Pow2(curr) <= table.Length
    modifies table
    ensures Filled(old(table[..]), table[..], next, Pow2(curr), Pow2(m), r, e)
  {
    hide Pow2;
    ghost var t := table[..];
    var incr, size := Pow2(m), Pow2(curr);
    PowPositive(m);
    Pow2Add(m, curr - m);
    PowPositive(curr - m);
    ghost var q := Pow2(curr - m);
    var fill := size;
    while fill != 0
      invariant q >= 0 && fill == incr * q && 0 <= fill <= size
      invariant forall i {:trigger table[i]} :: 0 <= i < table.Length ==>
          table[i] == if next + fill <= i < next + size && (i - next) % incr == r then e else t[i]
      decreases fill
    {
      OneLess(incr, q);
      ghost var was := table[..];
      fill := fill - incr;
      q := q - 1;
      FillSlot(incr, q, r);
      table[next + r + fill] := e;
      forall i | 0 <= i < table.Length
        ensures table[i] == if next + fill <= i < next + size && (i - next) % incr == r then e else t[i]
      {
        if next + fill <= i < next + fill + incr {
          InStride(incr, q, i - next - fill);
        }
      }
    }
  }

  lemma OneLess(incr: nat, q: nat)
    requires incr * q != 0
    ensures q > 0 && incr * q == incr * (q - 1) + incr
  {
  }

  lemma FillSlot(incr: nat, q: nat, r: nat)
    requires r < incr
    ensures (r + incr * q) % incr == r
  {
    DivModUnique(r + incr * q, incr, q, r);
  }

  lemma InStride(incr: nat, q: nat, z: nat)
    requires z < incr
    ensures (incr * q + z) % incr == z
  {
    DivModUnique(incr * q + z, incr, q, z);
  }

  // ---- remaining counts ----

  /** How many symbols of length `n` come at or after position `pos` of the full order. */
  function CodesAfter(lens: seq<byte>, pos: nat, n: nat): int {
    if pos <= Below(lens, n) then multiset(lens)[n]
    else if pos >= Below(lens, n + 1) then 0
    else Below(lens, n + 1) - pos
  }

  ghost predicate CodesLeft(count: seq<int>, lens: seq<byte>, pos: nat) {
    |count| == MAXBITS + 1 && forall n :: 1 <= n <= MAXBITS ==> count[n] == CodesAfter(lens, pos, n)
  }

  lemma AllRemain(count: seq<int>, lens: seq<byte>)
    requires Tallied(count, lens)
    ensures CodesLeft(count, lens, Below(lens, 1))
  {
    hide Below;
    forall n | 1 <= n <= MAXBITS
      ensures Below(lens, 1) <= Below(lens, n)
    {
      BelowMonotone(lens, 1, n);
    }
  }

  /** Entering symbol `s` uses up one code of its length. */
  lemma CountStep(count: seq<int>, lens: seq<byte>, s: nat)
    requires s < |lens| && 1 <= lens[s] <= MAXBITS && CodesLeft(count, lens, LastToFirst(lens, s))
    ensures CodesLeft(count[lens[s] := count[lens[s]] - 1], lens, LastToFirst(lens, s) + 1)
    ensures count[lens[s]] - 1 == Below(lens, lens[s] as int + 1) - (LastToFirst(lens, s) + 1)
  {
    hide Below, LastToFirst;
    var pos := LastToFirst(lens, s);
    BucketOf(lens, s);
    BelowStep(lens, lens[s]);
    forall n | 1 <= n <= MAXBITS && n != lens[s]
      ensures CodesAfter(lens, pos + 1, n) == CodesAfter(lens, pos, n)
    {
      BelowStep(lens, n);
      if n < lens[s] {
        BelowMonotone(lens, n + 1, lens[s]);
      } else {
        BelowMonotone(lens, lens[s] as int + 1, n);
      }
    }
  }

  // ---- the size of a sub-table ----

  /** What the codes from `s` on start at, seen at length n. */
  function StartAt(j: Job, s: nat, n: nat): nat
    requires Coded(j, s)
  {
    if n <= j.lens[s] then CodeOf(j.lens, s) else 2 * Occupied(j.lens, n - 1)
  }

  lemma StartPlusCount(j: Job, s: nat, n: nat, count: seq<int>)
    requires Good(j) && Coded(j, s) && j.lens[s] <= n <= MAXBITS && CodesLeft(count, j.lens, LastToFirst(j.lens, s))
    ensures StartAt(j, s, n) + count[n] == Occupied(j.lens, n)
  {
    hide Below, Kraft;
    BucketOf(j.lens, s);
    PermPlace(j.lens, s);
    BelowStep(j.lens, n);
    if n > j.lens[s] {
      BelowMonotone(j.lens, j.lens[s] as int + 1, n);
    } else {
      OccupiedStep(j.lens, n);
    }
  }

  /** The look-ahead loop: wide enough for all codes of the sub-table and, for a complete code, no wider. */
  method SubSize(j: Job, count: seq<int>, len: nat, ghost s: nat) returns (curr: nat)
    requires Good(j) && Coded(j, s) && len == j.lens[s] > j.root && CodesLeft(count, j.lens, LastToFirst(j.lens, s))
    requires CodeOf(j.lens, s) == Pre(j, s) * Pow2(len - j.root) && Kraft(j.lens, j.top) == Pow2(j.top)
    ensures 1 <= curr && len <= j.root + curr <= j.top && WideEnough(j, Pre(j, s), curr)
    ensures SubSlots(j, Pre(j, s)) == Pow2(curr)
  {
    hide Kraft, Pow2, CodeOf, Occupied, Pre, WideEnough, LastToFirst, CodesLeft, SubSlots, Straddles;
    ghost var p := Pre(j, s);
    curr := len - j.root;
    var left: int := Pow2(curr);
    Times(p, Pow2(curr));
    while curr + j.root < j.top
      invariant len - j.root <= curr <= j.top - j.root
      invariant left == (p + 1) * Pow2(curr) - StartAt(j, s, j.root + curr) && left <= Pow2(curr)
      invariant j.root + curr == len || Straddles(j, p, curr - 1)
      decreases j.top - curr
    {
      StartPlusCount(j, s, j.root + curr, count);
      CountLength(count, j.lens, LastToFirst(j.lens, s));
      left := left - count[curr + j.root];
      if left <= 0 {
        break;
      }
      NotFilled(j, p, curr, left);
      PowStep(curr);
      DoubleProduct(p + 1, Pow2(curr));
      curr := curr + 1;
      left := 2 * left;
    }
    LookAhead(j, p, curr);
    LookAheadExact(j, s, curr);
  }

  lemma NotFilled(j: Job, p: nat, curr: nat, left: int)
    requires left == (p + 1) * Pow2(curr) - Occupied(j.lens, j.root + curr) && 0 < left <= Pow2(curr)
    ensures Straddles(j, p, curr)
  {
    hide Pow2, Occupied;
    Times(p, Pow2(curr));
  }

  lemma CountLength(count: seq<int>, lens: seq<byte>, pos: nat)
    requires CodesLeft(count, lens, pos)
    ensures |count| == MAXBITS + 1 && forall n :: 1 <= n <= MAXBITS ==> count[n] >= 0
  {
    hide Below;
  }

  lemma Times(p: nat, x: nat)
    ensures (p + 1) * x == p * x + x
  {
  }

  // ---- the loop over all codes ----

  /** ENOUGH_LENS and ENOUGH_DISTS; there is no check for the code-length code. */
  predicate TooMuch(ty: CodeType, used: nat) {
    (ty == Lens && used >= ENOUGH_LENS) || (ty == Dists && used >= ENOUGH_DISTS)
  }

  /** Room the caller provides for any code at all. */
  function Room(ty: CodeType): nat {
    match ty
    case Codes => 2
    case Lens => ENOUGH_LENS
    case Dists => ENOUGH_DISTS
  }

  /** Since nothing checks the room for the code-length code, its caller has to provide all that it takes. */
  ghost predicate Roomy(j: Job, n: nat) {
    n >= Room(j.ty) && (j.ty == Codes ==> Total(j) <= n)
  }

  /** What is not too much fits. */
  lemma FitsSoFar(j: Job, s: nat, n: nat)
    requires Good(j) && Coded(j, s) && Roomy(j, n) && !TooMuch(j.ty, SoFar(j, s))
    ensures SoFar(j, s) <= n
  {
    hide Kraft, SoFar, Total;
    SoFarBelowTotal(j, s);
  }

  /** Enter one symbol. */
  method EnterSymbol(table: array<Slot>, j: Job, s: nat, huff: nat, len: nat, b: Option<Sub>, ghost work: seq<nat>,
          ghost k: nat)
    requires Ready(j, work, table[..], k, b) && s == work[k] && huff == Key(j.lens, s) && len == j.lens[s]
    modifies table
    ensures Entered(j, work, table[..], k + 1, b)
  {
    hide Key, Kraft, Leaf, Findable, LastToFirst, Below, Pre, WideEnough, Pow2;
    KeyBelow(j.lens, s);
    match b
    case None =>
      ghost var t := table[..];
      FillEntry(table, 0, j.root, len, huff, Leaf(j.ty, s, len));
      EnterRoot(j, work, t, table[..], k);
    case Some(sub) =>
      ghost var t := table[..];
      FitsSub(j, s, sub.curr);
      PowPositive(j.root);
      SubKeyBelow(j, s);
      FillEntry(table, sub.next, sub.curr, len - j.root, Quotient(huff, Pow2(j.root)), Leaf(j.ty, s, len - j.root));
      EnterSub(j, work, t, table[..], k, sub);
  }

  lemma SubKeyBelow(j: Job, s: nat)
    requires s < |j.lens| && j.lens[s] > j.root
    ensures SubKey(j, s) < Pow2(SubLen(j, s))
  {
    hide Key, Pow2;
    KeyBelow(j.lens, s);
    Pow2Add(j.root, SubLen(j, s));
    PowPositive(j.root);
    var key, r := Key(j.lens, s), Pow2(j.root);
    assert key == r * (key / r) + key % r;
    QuotientBelow(r, Pow2(SubLen(j, s)), key / r, key % r);
  }

  // ---- from one symbol to the next ----

  lemma {:induction false} BelowAbove(lens: seq<byte>, top: nat, n: nat)
    requires (forall s :: 0 <= s < |lens| ==> lens[s] <= top) && n > top
    ensures Below(lens, n) == Below(lens, top + 1)
  {
    if n > top + 1 {
      BelowAbove(lens, top, n - 1);
      assert n - 1 !in multiset(lens);
    }
  }

  lemma BelowTop(lens: seq<byte>, top: nat)
    requires (forall s :: 0 <= s < |lens| ==> lens[s] <= top) && top < 256
    ensures Below(lens, top + 1) == |lens|
  {
    BelowAbove(lens, top, 256);
    BelowAll(lens);
  }

  /** Where the order stands after symbol `k`: at the end, or at the next symbol with the length the counts say. */
  lemma AfterSymbol(j: Job, work: seq<nat>, k: nat, left: int)
    requires Good(j) && Sorted(j.lens, work) && k < |work| && j.top in multiset(j.lens)
    requires left == Below(j.lens, j.lens[work[k]] as int + 1) - (LastToFirst(j.lens, work[k]) + 1)
    ensures left == 0 && j.lens[work[k]] == j.top ==> k + 1 == |work|
    ensures !(left == 0 && j.lens[work[k]] == j.top) ==> k + 1 < |work|
    ensures left != 0 ==> k + 1 < |work| && j.lens[work[k + 1]] == j.lens[work[k]]
  {
    hide Below, LastToFirst, Kraft;
    var lens, s := j.lens, work[k];
    BucketOf(lens, s);
    BelowTop(lens, j.top);
    BelowStep(lens, j.top);
    BelowMonotone(lens, lens[s] as int + 1, j.top + 1);
    if lens[s] < j.top {
      BelowMonotone(lens, lens[s] as int + 1, j.top);
    }
    if left != 0 {
      var n := work[k + 1];
      BucketOf(lens, n);
      LastToFirstOrder(lens, s, n);
      if lens[s] < lens[n] {
        BelowMonotone(lens, lens[s] as int + 1, lens[n]);
      }
    }
  }

  /** What Ready knew of the symbol just entered. */
  ghost predicate Was(j: Job, s: nat, b: Option<Sub>)
    requires Coded(j, s)
  {
    match b
    case None => j.lens[s] <= j.root
    case Some(sub) => j.lens[s] > j.root && sub.low == RootOf(j, s) && WideEnough(j, Pre(j, s), sub.curr)
  }

  lemma ReadyWas(j: Job, work: seq<nat>, t: seq<Slot>, k: nat, b: Option<Sub>)
    requires Ready(j, work, t, k, b)
    ensures k < |work| && Coded(j, work[k]) && Was(j, work[k], b) && Good(j) && Sorted(j.lens, work)
  {
    hide Kraft, Pow2, Key, Findable, LastToFirst, Below, RootOf, WideEnough, Pre, Current, Before;
  }

  /** Start a sub-table for the next symbol if it needs a new one; `full` if the space is used up. */
  method NextPlace(table: array<Slot>, j: Job, work: seq<nat>, k: nat, huff: nat, len: nat, b: Option<Sub>,
          count: seq<int>, used: nat)
    returns (full: bool, b': Option<Sub>, used': nat)
    requires 0 < k < |work| && Entered(j, work, table[..], k, b) && Coded(j, work[k - 1]) && Coded(j, work[k])
    requires Was(j, work[k - 1], b)
    requires huff == Key(j.lens, work[k]) && len == j.lens[work[k]]
    requires CodesLeft(count, j.lens, LastToFirst(j.lens, work[k]))
    requires used == Free(j, b) <= table.Length && Roomy(j, table.Length)
    requires LastToFirst(j.lens, work[k]) == LastToFirst(j.lens, work[k - 1]) + 1
    requires used == SoFar(j, work[k - 1]) && !TooMuch(j.ty, used)
    requires (j.root < j.top ==> Kraft(j.lens, j.top) == Pow2(j.top))
    modifies table
    ensures !full ==> Ready(j, work, table[..], k, b') && used' == Free(j, b') <= table.Length
    ensures used' == SoFar(j, work[k]) && full == TooMuch(j.ty, used')
  {
    hide SoFar, SubSlots, Roomy;
    hide Kraft, Pow2, Key, Findable, LastToFirst, Below, WideEnough, Pre, Current, Before, CodesLeft;
    full, b', used' := false, b, used;
    var q := work[k - 1];
    PowPositive(j.root);
    NextSoFar(j, work, k - 1);
    if len > j.root && j.lens[q] > j.root {
      SharedSlot(j, q, work[k]);
    }
    if len > j.root && (b == None || huff % Pow2(j.root) != b.value.low) {
      SubStart(j, q, work[k]);
      var curr := SubSize(j, count, len, work[k]);
      used' := used + Pow2(curr);
      if TooMuch(j.ty, used') {
        full := true;
        return;
      }
      FitsSoFar(j, work[k], table.Length);
      var sub := Sub(used, curr, huff % Pow2(j.root));
      ghost var t := table[..];
      NewSub(j, work, t, k, b, sub);
      table[sub.low] := Entry(curr, j.root, used);
      assert table[..] == t[sub.low := Entry(curr, j.root, used)];
      b' := Some(sub);
    } else {
      if b.None? {
        StayReady(j, work, table[..], k, b);
      } else {
        WorkOrder(j.lens, work, k - 1, k);
        StayReady(j, work, table[..], k, b);
      }
    }
  }

  lemma StartReady(j: Job, work: seq<nat>, t: seq<Slot>)
    requires Good(j) && Sorted(j.lens, work) && work != [] && j.lens[work[0]] <= j.root && Pow2(j.root) <= |t|
    ensures Ready(j, work, t, 0, None) && Key(j.lens, work[0]) == 0
  {
    hide Kraft, Pow2, Findable, LastToFirst, Below, CodeOf, ToBits;
    FirstCode(j.lens, work[0]);
    ToBitsZero(j.lens[work[0]]);
    LsbZeros([], j.lens[work[0]]);
    assert [] + Zeros(j.lens[work[0]]) == Zeros(j.lens[work[0]]);
    LsbNothing();
  }

  lemma RankStep(lens: seq<byte>, work: seq<nat>, k: nat)
    requires Sorted(lens, work) && k < |work|
    ensures work[k] < |lens| && lens[work[k]] > 0 && LastToFirst(lens, work[k]) == Below(lens, 1) + k
  {
  }

  /** The main loop of inflate_table. */
  method FillTable(table: array<Slot>, j: Job, work: seq<nat>, count: array<int>)
    returns (full: bool, used: nat, huff: nat)
    requires Good(j) && Sorted(j.lens, work) && work != [] && j.lens[work[0]] <= j.root && j.top in multiset(j.lens)
    requires Roomy(j, table.Length)
    requires CodesLeft(count[..], j.lens, Below(j.lens, 1)) && (j.root < j.top ==> Kraft(j.lens, j.top) == Pow2(j.top))
    modifies table, count
    ensures full == TooMuch(j.ty, Total(j)) && (!full ==> used == Total(j))
    ensures !full ==> used <= table.Length && huff == LsbNat(Inc(CodeBits(j.lens, work[|work| - 1])))
    ensures !full ==>
      exists b: Option<Sub> {:trigger Free(j, b)} :: Entered(j, work, table[..], |work|, b) && used == Free(j, b)
  {
    hide Kraft, Pow2, Key, Findable, LastToFirst, Below, WideEnough, Pre, Current, Before, CodesLeft, CodeBits, Inc;
    hide LsbNat, RootOf, Sorted;
    hide SoFar, Total, Roomy;
    used := Pow2(j.root);
    full := TooMuch(j.ty, used);
    huff := 0;
    FirstSoFar(j, work);
    if full {
      MoreIsTooMuch(j, work[0]);
      return;
    }
    FitsSoFar(j, work[0], table.Length);
    StartReady(j, work, table[..]);
    RankStep(j.lens, work, 0);
    CountLength(count[..], j.lens, Below(j.lens, 1));
    var k, len, b := 0, j.lens[work[0]] as int, None;
    while true
      invariant 0 <= k < |work| && Ready(j, work, table[..], k, b) && used == Free(j, b) <= table.Length
      invariant work[k] < |j.lens| && huff == Key(j.lens, work[k]) && len == j.lens[work[k]]
      invariant Coded(j, work[k]) && used == SoFar(j, work[k]) && !full && !TooMuch(j.ty, used)
      invariant count.Length == MAXBITS + 1 && CodesLeft(count[..], j.lens, LastToFirst(j.lens, work[k]))
      decreases |work| - k
    {
      var s := work[k];
      ReadyWas(j, work, table[..], k, b);
      ghost var c := count[..];
      CountStep(c, j.lens, s);
      EnterSymbol(table, j, s, huff, len, b, work, k);
      KeyUnfold(j.lens, s);
      huff := BackwardIncrement(huff, len, CodeBits(j.lens, s));
      count[len] := count[len] - 1;
      assert count[..] == c[len := c[len] - 1];
      AfterSymbol(j, work, k, count[len]);
      if count[len] == 0 && len == j.top {
        assert k + 1 == |work|;
        assert Entered(j, work, table[..], |work|, b) && used == Free(j, b);
        LastSoFar(j, work);
        return;
      }
      k := k + 1;
      RankStep(j.lens, work, k - 1);
      RankStep(j.lens, work, k);
      if count[len] == 0 {
        len := j.lens[work[k]];
      }
      NextBits(j.lens, j.top, s, work[k]);
      full, b, used := NextPlace(table, j, work, k, huff, len, b, count[..], used);
      if full {
        MoreIsTooMuch(j, work[k]);
        return;
      }
    }
  }

  lemma FirstSoFar(j: Job, work: seq<nat>)
    requires Sorted(j.lens, work) && work != [] && j.lens[work[0]] <= j.root
    ensures Coded(j, work[0]) && SoFar(j, work[0]) == Pow2(j.root)
  {
  }

  /** What is too much already remains so. */
  lemma MoreIsTooMuch(j: Job, s: nat)
    requires Good(j) && Coded(j, s) && TooMuch(j.ty, SoFar(j, s))
    ensures TooMuch(j.ty, Total(j))
  {
    hide Kraft, SoFar, Total;
    SoFarBelowTotal(j, s);
  }

  lemma KeyUnfold(lens: seq<byte>, s: nat)
    requires s < |lens|
    ensures Key(lens, s) == LsbNat(CodeBits(lens, s)) && |CodeBits(lens, s)| == lens[s]
  {
  }
}
