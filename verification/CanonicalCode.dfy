/** BZ2_hbAssignCodes and BZ2_hbCreateDecodeTables: canonical codes and the limit/base/perm decoder. */
module CanonicalCode {
  import opened Base
  import opened Radix
  import opened InverseBwt
  import opened BitString

  const MAX_LEN := 20         // the longest code a decoder accepts
  const MAX_CODE_LEN := 23    // BZ_MAX_CODE_LEN
  const MAX_ALPHA := 258      // BZ_MAX_ALPHA_SIZE

  /** How many n-bit strings the codes of length at most `n` occupy, as prefixes. Length zero means: no code. */
  function Occupied(lens: seq<byte>, n: nat): nat {
    if n == 0 then 0 else 2 * Occupied(lens, n - 1) + multiset(lens)[n]
  }

  /** The first code of length `n`. */
  function First(lens: seq<byte>, n: nat): nat {
    if n == 0 then 0 else 2 * Occupied(lens, n - 1)
  }

  /** The canonical code of symbol `i`: symbols of one length are numbered in order. */
  function CodeOf(lens: seq<byte>, i: nat): nat
    requires i < |lens|
  {
    First(lens, lens[i]) + multiset(lens[..i])[lens[i]]
  }

  /** The Kraft sum of the code, in units of 2^-top. */
  function Kraft(lens: seq<byte>, top: nat): nat {
    if lens == [] then 0
    else Kraft(lens[..|lens| - 1], top) + (if 1 <= lens[|lens| - 1] <= top then Pow2(top - lens[|lens| - 1]) else 0)
  }

  /** Occupied(top) is the Kraft sum over the codes no longer than `top`. */
  lemma {:induction false} OccupiedIsKraft(lens: seq<byte>, top: nat)
    ensures Occupied(lens, top) == Kraft(lens, top)
  {
    if lens == [] {
      OccupiedNothing(top);
    } else {
      var k := |lens| - 1;
      OccupiedIsKraft(lens[..k], top);
      OccupiedPush(lens[..k], lens[k], top);
      assert lens[..k] + [lens[k]] == lens;
    }
  }

  lemma {:induction false} OccupiedNothing(n: nat)
    ensures Occupied([], n) == 0
  {
    if n > 0 {
      OccupiedNothing(n - 1);
    }
  }

  lemma {:induction false} OccupiedPush(lens: seq<byte>, x: byte, n: nat)
    ensures Occupied(lens + [x], n) == Occupied(lens, n) + if 1 <= x <= n then Pow2(n - x) else 0
  {
    assert multiset(lens + [x]) == multiset(lens) + multiset{x};
    if n > 0 {
      OccupiedPush(lens, x, n - 1);
    }
  }

  /** A finer unit for the Kraft sum. */
  lemma {:induction false} KraftScales(row: seq<byte>, top: nat, d: nat)
    requires forall i :: 0 <= i < |row| ==> row[i] <= top
    ensures Kraft(row, top + d) == Kraft(row, top) * Pow2(d)
  {
    if row != [] {
      var k := |row| - 1;
      KraftScales(row[..k], top, d);
      Pow2Add(top - row[k], d);
      assert top + d - row[k] == (top - row[k]) + d;
      Distribute(Kraft(row[..k], top), Pow2(top - row[k]), Pow2(d));
    }
  }

  lemma Distribute(a: nat, b: nat, c: nat)
    ensures (a + b) * c == a * c + b * c
  {
  }

  /** No length is over-subscribed: Kraft's inequality at the longest length. */
  ghost predicate FitsKraft(lens: seq<byte>, top: nat) {
    && (forall i :: 0 <= i < |lens| ==> 1 <= lens[i] <= top)
    && Kraft(lens, top) <= Pow2(top)
  }

  lemma {:induction false} OccupiedGrows(lens: seq<byte>, n: nat, d: nat)
    ensures Occupied(lens, n) * Pow2(d) <= Occupied(lens, n + d)
    ensures d > 0 ==> Occupied(lens, n) * Pow2(d) <= First(lens, n + d)
  {
    if d > 0 {
      OccupiedGrows(lens, n, d - 1);
      DoubleProduct(Occupied(lens, n), Pow2(d - 1));
      assert n + d - 1 == n + (d - 1);
    }
  }

  lemma CodeInRange(lens: seq<byte>, i: nat)
    requires i < |lens| && lens[i] > 0
    ensures First(lens, lens[i]) <= CodeOf(lens, i) < Occupied(lens, lens[i])
  {
    var c: int := lens[i];
    assert lens == lens[..i] + [lens[i]] + lens[i + 1..];
    assert multiset(lens)[c] == multiset(lens[..i])[c] + 1 + multiset(lens[i + 1..])[c];
  }

  /** Under Kraft's inequality every code fits its length. */
  lemma CodeFits(lens: seq<byte>, top: nat, i: nat)
    requires Kraft(lens, top) <= Pow2(top) && i < |lens| && 1 <= lens[i] <= top
    ensures CodeOf(lens, i) < Pow2(lens[i])
  {
    var n: nat, d: nat := lens[i], top - lens[i];
    CodeInRange(lens, i);
    OccupiedGrows(lens, n, d);
    OccupiedIsKraft(lens, top);
    Pow2Add(n, d);
    CancelFactor(Occupied(lens, n), Pow2(n), Pow2(d));
  }

  lemma CancelFactor(a: nat, b: nat, c: nat)
    requires c > 0 && a * c <= b * c
    ensures a <= b
  {
  }

  /** v >> d. */
  function Shr(v: nat, d: nat): nat {
    if d == 0 then v else Shr(v / 2, d - 1)
  }

  lemma {:induction false} ShrAtLeast(v: nat, q: nat, d: nat)
    requires q * Pow2(d) <= v
    ensures q <= Shr(v, d)
  {
    if d > 0 {
      DoubleProduct(q, Pow2(d - 1));
      ShrAtLeast(v / 2, q, d - 1);
    }
  }

  lemma {:induction false} ShrFits(v: nat, n: nat, d: nat)
    requires v < Pow2(n + d)
    ensures Shr(v, d) < Pow2(n)
  {
    if d > 0 {
      assert n + d - 1 == n + (d - 1);
      ShrFits(v / 2, n, d - 1);
    }
  }

  /** Cutting a longer code down to a shorter length lands beyond every code of that length. */
  lemma CutBeyond(lens: seq<byte>, i: nat, n: nat)
    requires i < |lens| && n < lens[i]
    ensures Shr(CodeOf(lens, i), lens[i] - n) >= Occupied(lens, n)
  {
    var d: nat := lens[i] - n;
    CodeInRange(lens, i);
    OccupiedGrows(lens, n, d);
    ShrAtLeast(CodeOf(lens, i), Occupied(lens, n), d);
  }

  function CodeBits(lens: seq<byte>, i: nat): (b: Bits)
    requires i < |lens|
    ensures |b| == lens[i]
  {
    ToBits(CodeOf(lens, i), lens[i])
  }

  /** The first `m` bits of an n-bit number. */
  lemma {:induction false} ToBitsPrefix(v: nat, n: nat, m: nat)
    requires m <= n
    ensures ToBits(v, n)[..m] == ToBits(Shr(v, n - m), m)
  {
    if m < n {
      ToBitsPrefix(v / 2, n - 1, m);
      assert ToBits(v, n)[..m] == ToBits(v / 2, n - 1)[..m];
    }
  }

  /** What a reader of a code has after `n` of its bits. */
  lemma CodePrefix(lens: seq<byte>, top: nat, i: nat, n: nat)
    requires Kraft(lens, top) <= Pow2(top) && i < |lens| && 1 <= lens[i] <= top && n <= lens[i]
    ensures ToNat(CodeBits(lens, i)[..n]) == Shr(CodeOf(lens, i), lens[i] - n)
  {
    hide Pow2, ToNat, Shr, CodeOf, Kraft, ToBits;
    var c, d: nat := CodeOf(lens, i), lens[i] - n;
    CodeFits(lens, top, i);
    assert n + d == lens[i];
    ShrFits(c, n, d);
    ToBitsPrefix(c, lens[i], n);
    BitsRoundTrip(Shr(c, d), n);
  }

  /** No code is a prefix of another. */
  lemma PrefixFree(lens: seq<byte>, top: nat, i: nat, j: nat)
    requires Kraft(lens, top) <= Pow2(top) && i < |lens| && j < |lens| && i != j && 1 <= lens[i] <= top
    requires 1 <= lens[j] <= top
    ensures !(CodeBits(lens, i) <= CodeBits(lens, j))
  {
    var n: nat := lens[i];
    if n <= lens[j] {
      CodePrefix(lens, top, i, n);
      CodePrefix(lens, top, j, n);
      assert CodeBits(lens, i)[..n] == CodeBits(lens, i);
      assert CodeBits(lens, i) <= CodeBits(lens, j) ==> CodeBits(lens, j)[..n] == CodeBits(lens, i);
      if n < lens[j] {
        CutBeyond(lens, j, n);
        CodeInRange(lens, i);
      } else {
        SameLengthDiffer(lens, i, j);
      }
    }
  }

  lemma SameLengthDiffer(lens: seq<byte>, i: nat, j: nat)
    requires i < |lens| && j < |lens| && i != j && lens[i] == lens[j]
    ensures CodeOf(lens, i) != CodeOf(lens, j)
  {
    if i < j {
      RanksGrow(lens, i, j);
    } else {
      RanksGrow(lens, j, i);
    }
  }

  // ---- BZ2_hbAssignCodes ----

  lemma RankStep(lens: seq<byte>, i: nat, n: nat)
    requires i < |lens|
    ensures multiset(lens[..i + 1])[n] == multiset(lens[..i])[n] + if lens[i] == n then 1 else 0
  {
    assert lens[..i + 1] == lens[..i] + [lens[i]];
  }

  lemma {:induction false} OccupiedBelow(lens: seq<byte>, minLen: nat, n: nat)
    requires n < minLen && forall i :: 0 <= i < |lens| ==> minLen <= lens[i]
    ensures Occupied(lens, n) == 0
  {
    assert n !in multiset(lens);
    if n > 0 {
      OccupiedBelow(lens, minLen, n - 1);
    }
  }

  /** Hand out the codes of one length. */
  method AssignLength(code: array<int>, length: seq<byte>, n: nat, vec0: nat) returns (vec: nat)
    requires code.Length >= |length| && n >= 1 && vec0 == First(length, n)
    modifies code
    ensures vec == Occupied(length, n)
    ensures forall i :: 0 <= i < |length| ==> code[i] == if length[i] == n then CodeOf(length, i) else old(code[i])
  {
    vec := vec0;
    assert length[..0] == [];
    var i := 0;
    while i < |length|
      invariant 0 <= i <= |length| && vec == First(length, n) + multiset(length[..i])[n]
      invariant forall j :: 0 <= j < i ==> code[j] == if length[j] == n then CodeOf(length, j) else old(code[j])
      invariant forall j :: i <= j < |length| ==> code[j] == old(code[j])
    {
      RankStep(length, i, n);
      if length[i] == n {
        code[i] := vec;
        vec := vec + 1;
      }
      i := i + 1;
    }
    assert length[..i] == length;
  }

  method AssignCodes(code: array<int>, length: seq<byte>, minLen: nat, maxLen: nat)
    requires code.Length >= |length| && 1 <= minLen
    requires forall i :: 0 <= i < |length| ==> minLen <= length[i] <= maxLen
    modifies code
    ensures forall i :: 0 <= i < |length| ==> code[i] == CodeOf(length, i)
  {
    hide CodeOf, Occupied;
    var vec := 0;
    OccupiedBelow(length, minLen, minLen - 1);
    var n := minLen;
    while n <= maxLen
      invariant minLen <= n && vec == First(length, n)
      invariant forall i :: 0 <= i < |length| && length[i] < n ==> code[i] == CodeOf(length, i)
    {
      vec := AssignLength(code, length, n, vec);
      vec := 2 * vec;
      n := n + 1;
    }
  }

  // ---- BZ2_hbCreateDecodeTables ----

  datatype DecodeTable = DecodeTable(minLen: nat, limit: seq<int>, base: seq<int>, perm: seq<int>)

  /** What the three vectors mean for lengths in minLen..maxLen. */
  ghost predicate TableFor(lens: seq<byte>, maxLen: nat, t: DecodeTable) {
    && 1 <= t.minLen <= maxLen <= MAX_LEN && |t.limit| > MAX_LEN && |t.base| > MAX_LEN && |t.perm| >= |lens|
    && (forall i :: 0 <= i < |lens| ==> t.minLen <= lens[i] <= maxLen)
    && (forall n :: t.minLen <= n <= maxLen ==> t.limit[n] == Occupied(lens, n) - 1)
    && (forall n :: t.minLen <= n <= maxLen ==> t.base[n] == First(lens, n) - Below(lens, n))
    && (forall i :: 0 <= i < |lens| ==> t.perm[LastToFirst(lens, i)] == i)
  }

  /** perm lists the symbols of lengths below `n`, and those of length `n` below `j`, each at its place. */
  ghost predicate Permed(perm: seq<int>, lens: seq<byte>, n: nat, j: nat) {
    && |perm| >= |lens|
    && forall i :: 0 <= i < |lens| && (lens[i] < n || (lens[i] == n && i < j)) ==> perm[LastToFirst(lens, i)] == i
  }

  lemma PermStep(perm: seq<int>, lens: seq<byte>, n: nat, j: nat)
    requires Permed(perm, lens, n, j) && j < |lens| && lens[j] == n
    ensures Permed(perm[LastToFirst(lens, j) := j], lens, n, j + 1)
  {
    forall i | 0 <= i < |lens| && (lens[i] < n || (lens[i] == n && i < j))
      ensures LastToFirst(lens, i) < LastToFirst(lens, j)
    {
      LastToFirstOrder(lens, i, j);
    }
  }

  lemma PermPlace(lens: seq<byte>, j: nat)
    requires j < |lens|
    ensures Below(lens, lens[j]) + multiset(lens[..j])[lens[j]] == LastToFirst(lens, j) < |lens|
  {
  }

  method EnterSymbol(perm: array<int>, length: seq<byte>, n: nat, j: nat, pp: nat)
    requires Permed(perm[..], length, n, j) && j < |length| && length[j] == n && pp == LastToFirst(length, j)
    modifies perm
    ensures Permed(perm[..], length, n, j + 1)
  {
    ghost var p := perm[..];
    PermStep(p, length, n, j);
    perm[pp] := j;
    assert perm[..] == p[pp := j];
  }

  lemma PermSkip(perm: seq<int>, lens: seq<byte>, n: nat, j: nat)
    requires Permed(perm, lens, n, j)
    ensures j < |lens| && lens[j] != n ==> Permed(perm, lens, n, j + 1)
    ensures j == |lens| ==> Permed(perm, lens, n + 1, 0)
  {
  }

  /** Enter the symbols of one length into perm. */
  method PermLength(perm: array<int>, length: seq<byte>, n: nat, pp0: nat) returns (pp: nat)
    requires pp0 == Below(length, n) && Permed(perm[..], length, n, 0)
    modifies perm
    ensures pp == Below(length, n + 1) && Permed(perm[..], length, n + 1, 0)
  {
    hide LastToFirst, Permed;
    pp := pp0;
    assert length[..0] == [];
    var j := 0;
    while j < |length|
      invariant 0 <= j <= |length| && pp == Below(length, n) + multiset(length[..j])[n]
      invariant Permed(perm[..], length, n, j)
    {
      RankStep(length, j, n);
      PermSkip(perm[..], length, n, j);
      if length[j] == n {
        PermPlace(length, j);
        EnterSymbol(perm, length, n, j, pp);
        pp := pp + 1;
      }
      j := j + 1;
    }
    PermSkip(perm[..], length, n, j);
    assert length[..j] == length;
  }

  /** base[length[i] + 1]++. */
  method TallyLengths(base: array<int>, length: seq<byte>)
    requires base.Length == MAX_CODE_LEN && (forall n :: 0 <= n < MAX_CODE_LEN ==> base[n] == 0)
    requires forall i :: 0 <= i < |length| ==> length[i] <= MAX_LEN
    modifies base
    ensures base[0] == 0 && forall n :: 0 < n < MAX_CODE_LEN ==> base[n] == multiset(length)[n - 1]
  {
    var i := 0;
    while i < |length|
      invariant 0 <= i <= |length| && base[0] == 0
      invariant forall n :: 0 < n < MAX_CODE_LEN ==> base[n] == multiset(length[..i])[n - 1]
    {
      assert length[..i + 1] == length[..i] + [length[i]];
      base[length[i] as int + 1] := base[length[i] as int + 1] + 1;
      i := i + 1;
    }
    assert length[..i] == length;
  }

  /** The cumulative counts: base[i] = number of codes shorter than i. */
  method CountLengths(length: seq<byte>) returns (base: array<int>)
    requires forall i :: 0 <= i < |length| ==> length[i] <= MAX_LEN
    ensures fresh(base) && base.Length == MAX_CODE_LEN
    ensures forall n :: 0 <= n < MAX_CODE_LEN ==> base[n] == Below(length, n)
  {
    hide Below;
    NothingBelow(length);
    base := new int[MAX_CODE_LEN](_ => 0);
    TallyLengths(base, length);
    var i := 1;
    while i < MAX_CODE_LEN
      invariant 1 <= i <= MAX_CODE_LEN
      invariant forall n :: 0 <= n < i ==> base[n] == Below(length, n)
      invariant forall n :: i <= n < MAX_CODE_LEN ==> base[n] == multiset(length)[n - 1]
    {
      BelowStep(length, i - 1);
      base[i] := base[i] + base[i - 1];
      i := i + 1;
    }
  }

  ghost predicate LimitsTo(limit: seq<int>, lens: seq<byte>, minLen: nat, n: nat) {
    n <= |limit| && forall k :: minLen <= k < n ==> limit[k] == Occupied(lens, k) - 1
  }

  method FillLimits(limit: array<int>, base: seq<int>, length: seq<byte>, minLen: nat, maxLen: nat)
    requires limit.Length > MAX_LEN && |base| == MAX_CODE_LEN && 1 <= minLen <= maxLen <= MAX_LEN
    requires forall i :: 0 <= i < |length| ==> minLen <= length[i]
    requires forall n :: 0 <= n < MAX_CODE_LEN ==> base[n] == Below(length, n)
    modifies limit
    ensures LimitsTo(limit[..], length, minLen, maxLen + 1)
    ensures forall n :: maxLen < n < limit.Length ==> limit[n] == old(limit[n])
  {
    OccupiedBelow(length, minLen, minLen - 1);
    var vec := 0;
    var i := minLen;
    while i <= maxLen
      invariant minLen <= i <= maxLen + 1 && vec == First(length, i) && LimitsTo(limit[..], length, minLen, i)
      invariant forall n :: maxLen < n < limit.Length ==> limit[n] == old(limit[n])
    {
      vec := vec + (base[i + 1] - base[i]);
      limit[i] := vec - 1;
      vec := 2 * vec;
      i := i + 1;
    }
  }

  method AdjustBase(limit: seq<int>, base: array<int>, length: seq<byte>, minLen: nat, maxLen: nat)
    requires base.Length == MAX_CODE_LEN && 1 <= minLen <= maxLen <= MAX_LEN
    requires LimitsTo(limit, length, minLen, maxLen + 1)
    requires forall i :: 0 <= i < |length| ==> minLen <= length[i]
    requires forall n :: 0 <= n < MAX_CODE_LEN ==> base[n] == Below(length, n)
    modifies base
    ensures forall n :: minLen <= n <= maxLen ==> base[n] == First(length, n) - Below(length, n)
  {
    hide Occupied, Below;
    OccupiedBelow(length, minLen, minLen - 1);
    NoneShorter(length, minLen, minLen);
    var i := minLen + 1;
    while i <= maxLen
      invariant minLen + 1 <= i <= maxLen + 1
      invariant forall n :: minLen <= n < i ==> base[n] == First(length, n) - Below(length, n)
      invariant forall n :: i <= n < MAX_CODE_LEN ==> base[n] == Below(length, n)
    {
      assert limit[i - 1] == Occupied(length, i - 1) - 1;
      base[i] := (limit[i - 1] + 1) * 2 - base[i];
      i := i + 1;
    }
  }

  lemma {:induction false} NoneShorter(length: seq<byte>, minLen: nat, n: nat)
    requires n <= minLen && forall i :: 0 <= i < |length| ==> minLen <= length[i]
    ensures Below(length, n) == 0
  {
    if n > 0 {
      NoneShorter(length, minLen, n - 1);
      assert n - 1 !in multiset(length);
    }
  }

  lemma NonePermed(perm: seq<int>, lens: seq<byte>, minLen: nat)
    requires |perm| >= |lens| && forall i :: 0 <= i < |lens| ==> minLen <= lens[i]
    ensures Permed(perm, lens, minLen, 0)
  {
  }

  lemma AllPermed(perm: seq<int>, lens: seq<byte>, maxLen: nat)
    requires Permed(perm, lens, maxLen + 1, 0) && forall i :: 0 <= i < |lens| ==> lens[i] <= maxLen
    ensures forall i :: 0 <= i < |lens| ==> perm[LastToFirst(lens, i)] == i
  {
  }

  method CreateDecodeTables(length: seq<byte>, minLen: nat, maxLen: nat) returns (t: DecodeTable)
    requires 1 <= minLen <= maxLen <= MAX_LEN && |length| <= MAX_ALPHA
    requires forall i :: 0 <= i < |length| ==> minLen <= length[i] <= maxLen
    ensures t.minLen == minLen && TableFor(length, maxLen, t) && |t.perm| == MAX_ALPHA
    ensures forall n :: maxLen < n <= MAX_LEN ==> t.limit[n] == 0
  {
    hide Permed, LastToFirst, Occupied, Below;
    var perm := new int[MAX_ALPHA](_ => 0);
    assert Permed(perm[..], length, minLen, 0) by {
      NonePermed(perm[..], length, minLen);
    }
    NoneShorter(length, minLen, minLen);
    var pp := 0;
    var i := minLen;
    while i <= maxLen
      invariant minLen <= i <= maxLen + 1 && pp == Below(length, i) && Permed(perm[..], length, i, 0)
    {
      pp := PermLength(perm, length, i, pp);
      i := i + 1;
    }
    var base := CountLengths(length);
    var limit := new int[MAX_ALPHA](_ => 0);
    FillLimits(limit, base[..], length, minLen, maxLen);
    AdjustBase(limit[..], base, length, minLen, maxLen);
    t := DecodeTable(minLen, limit[..], base[..], perm[..]);
    AllPermed(perm[..], length, maxLen);
  }
}
