/**
 * The most room a decoding table can take. zlib found 852 and 592 by exhaustive search (examples/enough.c); here
 * they are proved, from an identity between the room, the codes in the sub-tables and what each length leaves open.
 */
module Enough {
  import opened Base
  import opened BitString
  import opened Radix
  import opened CanonicalCode
  import opened LsbCode
  import opened InflateTable
  import opened SubTables
  import opened TableSize
  import opened InflateBuild
  import opened InflateTrees

  // ---- ones ----

  /** How many binary digits are one. */
  function Ones(x: nat): nat {
    if x == 0 then 0 else x % 2 + Ones(x / 2)
  }

  lemma {:induction false} OnesNext(x: nat)
    ensures Ones(x + 1) <= Ones(x) + 1
  {
    if x % 2 == 1 {
      assert (x + 1) / 2 == x / 2 + 1;
      OnesNext(x / 2);
    } else {
      assert (x + 1) / 2 == x / 2;
    }
  }

  lemma {:induction false} OnesAdd(x: nat, k: nat)
    ensures Ones(x + k) <= Ones(x) + k
  {
    if k > 0 {
      OnesAdd(x, k - 1);
      OnesNext(x + k - 1);
    }
  }

  lemma {:induction false} OnesTop(x: nat, k: nat)
    requires Pow2(k) <= x < 2 * Pow2(k)
    ensures Ones(x) == 1 + Ones(x - Pow2(k))
  {
    if k > 0 {
      assert (x - Pow2(k)) / 2 == x / 2 - Pow2(k - 1);
      OnesTop(x / 2, k - 1);
    }
  }

  /** The codes of up to `n` bits, at least one for each one in what they occupy. */
  lemma {:induction false} ShortCodes(lens: seq<byte>, n: nat)
    ensures Ones(Occupied(lens, n)) <= Below(lens, n + 1) - Below(lens, 1)
  {
    hide Ones;
    if n > 0 {
      ShortCodes(lens, n - 1);
      BelowStep(lens, n);
      OnesAdd(2 * Occupied(lens, n - 1), multiset(lens)[n]);
      OnesDouble(Occupied(lens, n - 1));
    } else {
      OnesDouble(0);
    }
  }

  lemma OnesDouble(x: nat)
    ensures Ones(2 * x) == Ones(x) && Ones(0) == 0
  {
  }

  // ---- prefixes filled, and what is left over ----

  /** Root prefixes filled by codes of up to root + c bits. */
  function FullPrefixes(j: Job, c: nat): nat {
    Shr(Occupied(j.lens, j.root + c), c)
  }

  /** What those codes occupy under the prefix they have begun. */
  function Open(j: Job, c: nat): int {
    Occupied(j.lens, j.root + c) - FullPrefixes(j, c) * Pow2(c)
  }

  lemma {:induction false} ShrSplit(v: nat, c: nat)
    ensures Shr(v, c) * Pow2(c) <= v < Shr(v, c) * Pow2(c) + Pow2(c)
  {
    if c > 0 {
      ShrSplit(v / 2, c - 1);
      DoubleProduct(Shr(v / 2, c - 1), Pow2(c - 1));
    }
  }

  lemma OpenRange(j: Job, c: nat)
    ensures 0 <= Open(j, c) < Pow2(c)
  {
    ShrSplit(Occupied(j.lens, j.root + c), c);
  }

  /** From one length to the next. */
  lemma LengthStep(j: Job, c: nat)
    requires c > 0
    ensures FullPrefixes(j, c) >= FullPrefixes(j, c - 1)
    ensures multiset(j.lens)[j.root + c]
      == (FullPrefixes(j, c) - FullPrefixes(j, c - 1)) * Pow2(c) + Open(j, c) - 2 * Open(j, c - 1)
  {
    hide Shr, Occupied;
    var was, now := Occupied(j.lens, j.root + c - 1), Occupied(j.lens, j.root + c);
    OccupiedNext(j.lens, j.root + c);
    assert j.root + c - 1 == j.root + (c - 1);
    ShrSplit(was, c - 1);
    DoubleProduct(FullPrefixes(j, c - 1), Pow2(c - 1));
    ShrAtLeast(now, FullPrefixes(j, c - 1), c);
    FactorOut(FullPrefixes(j, c), FullPrefixes(j, c - 1), Pow2(c));
  }

  lemma OccupiedNext(lens: seq<byte>, n: nat)
    requires n > 0
    ensures Occupied(lens, n) == 2 * Occupied(lens, n - 1) + multiset(lens)[n]
  {
  }

  lemma FactorOut(a: nat, b: nat, x: nat)
    requires a >= b
    ensures (a - b) * x == a * x - b * x
  {
  }

  // ---- the room of the sub-tables, length by length ----

  ghost predicate CompleteJob(j: Job) {
    Good(j) && Kraft(j.lens, j.top) == Pow2(j.top)
  }

  /** A prefix that is filled at root + c bits, and not before, has a sub-table of 2^c slots. */
  lemma SlotsOf(j: Job, c: nat, p: nat)
    requires CompleteJob(j) && c > 0 && j.root + c <= j.top && FullPrefixes(j, c - 1) <= p < FullPrefixes(j, c)
    ensures SubSlots(j, p) == Pow2(c)
  {
    hide Kraft, Occupied, Pow2, Shr, Reach, CodeOf, Pre;
    var n := j.root + c;
    var s := LongestUnder(j, c, p);
    ReachBounds(j, p, |j.lens|);
    forall o | 0 <= o < |j.lens| && Under(j, p, o)
      ensures j.lens[o] <= n
    {
      if j.lens[o] > n {
        NotUnderFilled(j, c, p, o);
      }
    }
  }

  /** The last string of root + c bits under `p` belongs to a code of that length. */
  lemma LongestUnder(j: Job, c: nat, p: nat) returns (s: nat)
    requires CompleteJob(j) && c > 0 && j.root + c <= j.top && FullPrefixes(j, c - 1) <= p < FullPrefixes(j, c)
    ensures Under(j, p, s) && j.lens[s] == j.root + c
  {
    hide Kraft, Occupied, Pow2, Shr, CodeOf;
    var n := j.root + c;
    var v := (p + 1) * Pow2(c) - 1;
    var d := j.top - n;
    var x := v * Pow2(d);
    LastString(j, c, p);
    ShrUp(v, d, 0);
    ShrNone(v);
    assert Shr(x, j.top - n) == v;
    var m := FindLength(j, x, n);
    if m < n {
      ShrUp(v, d, 1);
      ShrOnce(v);
      assert j.top - (n - 1) == d + 1;
    }
    s := FindSymbol(j.lens, x, n, j.top);
    ShrBetween(v, p, c);
  }

  lemma LastString(j: Job, c: nat, p: nat)
    requires c > 0 && FullPrefixes(j, c - 1) <= p < FullPrefixes(j, c)
    ensures 0 <= (p + 1) * Pow2(c) - 1 < Occupied(j.lens, j.root + c)
    ensures p * Pow2(c) <= (p + 1) * Pow2(c) - 1
    ensures ((p + 1) * Pow2(c) - 1) / 2 >= Occupied(j.lens, j.root + c - 1)
  {
    hide Occupied, Shr;
    ShrSplit(Occupied(j.lens, j.root + c), c);
    ShrSplit(Occupied(j.lens, j.root + (c - 1)), c - 1);
    TimesMonotone(p + 1, FullPrefixes(j, c), Pow2(c));
    TimesMonotone(FullPrefixes(j, c - 1) + 1, p + 1, Pow2(c - 1));
    DoubleProduct(p + 1, Pow2(c - 1));
    assert j.root + c - 1 == j.root + (c - 1);
  }

  /** No longer code begins with a prefix that is filled. */
  lemma NotUnderFilled(j: Job, c: nat, p: nat, o: nat)
    requires o < |j.lens| && j.lens[o] > j.root + c && p < FullPrefixes(j, c)
    ensures !Under(j, p, o)
  {
    hide Occupied, Pow2, Shr, CodeOf;
    var n := j.root + c;
    CutBeyond(j.lens, o, n);
    var v := Shr(CodeOf(j.lens, o), j.lens[o] - n);
    ShrSplit(Occupied(j.lens, n), c);
    TimesMonotone(p + 1, FullPrefixes(j, c), Pow2(c));
    ShrAtLeast(v, p + 1, c);
    ShrAdd(CodeOf(j.lens, o), j.lens[o] - n, c);
  }

  lemma {:induction false} SlotsFromTo(j: Job, c: nat, p: nat)
    requires CompleteJob(j) && c > 0 && j.root + c <= j.top && FullPrefixes(j, c - 1) <= p <= FullPrefixes(j, c)
    ensures SubTotal(j, p) == SubTotal(j, FullPrefixes(j, c - 1)) + (p - FullPrefixes(j, c - 1)) * Pow2(c)
    decreases p
  {
    hide Kraft, Pow2, SubSlots, FullPrefixes;
    if p > FullPrefixes(j, c - 1) {
      SlotsFromTo(j, c, p - 1);
      SlotsOf(j, c, p - 1);
      OneMoreTime(p - 1 - FullPrefixes(j, c - 1), Pow2(c));
    }
  }

  lemma OneMoreTime(a: nat, x: nat)
    ensures (a + 1) * x == a * x + x
  {
  }

  /** Prefixes filled by codes within the root have no sub-table. */
  lemma {:induction false} NoSlots(j: Job, p: nat)
    requires p <= FullPrefixes(j, 0)
    ensures SubTotal(j, p) == 0
  {
    hide FullPrefixes;
    if p > 0 {
      NoSlots(j, p - 1);
      ReachBounds(j, p - 1, |j.lens|);
      forall o | 0 <= o < |j.lens| && j.lens[o] > j.root
        ensures !Under(j, p - 1, o)
      {
        NotUnderFilled(j, 0, p - 1, o);
      }
    }
  }

  /** Codes of root + 1 to root + c bits. */
  function LongCodes(j: Job, c: nat): int {
    Below(j.lens, j.root + c + 1) - Below(j.lens, j.root + 1)
  }

  function OpenSum(j: Job, c: nat): int {
    if c == 0 then 0 else OpenSum(j, c - 1) + Open(j, c - 1)
  }

  /** The room of the sub-tables filled so far: the codes in them, and what each length left open. */
  lemma {:induction false} RoomIdentity(j: Job, c: nat)
    requires CompleteJob(j) && j.root + c <= j.top
    ensures SubTotal(j, FullPrefixes(j, c)) + Open(j, c) == LongCodes(j, c) + OpenSum(j, c)
  {
    hide Kraft, FullPrefixes, SubTotal, Below, Pow2;
    if c == 0 {
      NoSlots(j, FullPrefixes(j, 0));
      NothingOpen(j);
    } else {
      RoomIdentity(j, c - 1);
      LengthStep(j, c);
      SlotsFromTo(j, c, FullPrefixes(j, c));
      BelowStep(j.lens, j.root + c);
      assert j.root + (c - 1) + 1 == j.root + c;
    }
  }

  lemma NothingOpen(j: Job)
    ensures Open(j, 0) == 0 && FullPrefixes(j, 0) == Occupied(j.lens, j.root)
  {
    assert Pow2(0) == 1;
    assert Occupied(j.lens, j.root + 0) == Occupied(j.lens, j.root);
  }

  lemma {:induction false} OpenBound(j: Job, c: nat)
    ensures 0 <= OpenSum(j, c) <= Pow2(c) - 1 - c
  {
    hide Open;
    if c > 0 {
      OpenBound(j, c - 1);
      OpenRange(j, c - 1);
    }
  }

  lemma {:induction false} RoomEven(j: Job, c: nat)
    requires CompleteJob(j) && j.root + c <= j.top
    ensures SubTotal(j, FullPrefixes(j, c)) % 2 == 0
  {
    hide CompleteJob, FullPrefixes, SubTotal, Pow2, Open;
    if c == 0 {
      NoSlots(j, FullPrefixes(j, 0));
    } else {
      RoomEven(j, c - 1);
      LengthStep(j, c);
      SlotsFromTo(j, c, FullPrefixes(j, c));
      PowNext(c);
      EvenProduct(FullPrefixes(j, c) - FullPrefixes(j, c - 1), Pow2(c - 1));
    }
  }

  lemma EvenProduct(a: nat, x: nat)
    ensures a * (2 * x) % 2 == 0
  {
    assert a * (2 * x) == 2 * (a * x);
  }

  /** Every sub-table has two codes, and a begun prefix one. */
  lemma {:induction false} TwoEach(j: Job, c: nat)
    ensures LongCodes(j, c) >= 2 * (FullPrefixes(j, c) - FullPrefixes(j, 0)) + if Open(j, c) > 0 then 1 else 0
  {
    hide FullPrefixes, Open, Below, Pow2;
    if c == 0 {
      NothingOpen(j);
    } else {
      TwoEach(j, c - 1);
      LengthStep(j, c);
      OpenRange(j, c);
      OpenRange(j, c - 1);
      BelowStep(j.lens, j.root + c);
      assert j.root + (c - 1) + 1 == j.root + c;
      PowNext(c);
      var d := FullPrefixes(j, c) - FullPrefixes(j, c - 1);
      AtLeastOnce(d, Pow2(c - 1));
    }
  }

  lemma PowNext(c: nat)
    requires c > 0
    ensures Pow2(c) == 2 * Pow2(c - 1)
  {
  }

  lemma AtLeastOnce(d: nat, x: nat)
    requires x >= 1
    ensures d > 0 ==> d * (2 * x) >= 2 * x + 2 * (d - 1)
  {
    if d > 0 {
      assert (d - 1) * (2 * x) >= (d - 1) * 2;
      assert d * (2 * x) == (d - 1) * (2 * x) + 2 * x;
    }
  }

  // ---- the bounds ----

  /** All room of the sub-tables, against the codes in them and the codes outside. */
  lemma AllRoom(j: Job)
    requires CompleteJob(j)
    ensures var c, o, room := j.top - j.root, Occupied(j.lens, j.root), SubTotal(j, Pow2(j.root));
      && 0 <= o <= Pow2(j.root) && room % 2 == 0 && (o == Pow2(j.root) ==> room == 0)
      && room <= LongCodes(j, c) + Pow2(c) - 1 - c
      && LongCodes(j, c) >= 2 * (Pow2(j.root) - o) && LongCodes(j, c) + Ones(o) <= |j.lens|
  {
    hide Kraft, FullPrefixes, SubTotal, Below, Pow2, Ones, Occupied, Open;
    var c := j.top - j.root;
    AllFilled(j);
    RoomIdentity(j, c);
    OpenBound(j, c);
    RoomEven(j, c);
    TwoEach(j, c);
    NothingOpen(j);
    NoSlots(j, FullPrefixes(j, 0));
    ShortCodes(j.lens, j.root);
    BelowMonotone(j.lens, j.top + 1, 256);
    BelowAll(j.lens);
    FilledGrows(j, c);
    BelowZero(j.lens);
  }

  lemma BelowZero(lens: seq<byte>)
    ensures Below(lens, 1) >= 0
  {
  }

  /** A complete code fills every prefix. */
  lemma AllFilled(j: Job)
    requires CompleteJob(j)
    ensures var c := j.top - j.root; FullPrefixes(j, c) == Pow2(j.root) && Open(j, c) == 0
  {
    hide Kraft, Pow2, Occupied, Shr;
    var c := j.top - j.root;
    OccupiedIsKraft(j.lens, j.top);
    Pow2Add(j.root, c);
    ShrUp(Pow2(j.root), c, 0);
    ShrNone(Pow2(j.root));
  }

  lemma {:induction false} FilledGrows(j: Job, c: nat)
    ensures FullPrefixes(j, 0) <= FullPrefixes(j, c)
  {
    hide FullPrefixes;
    if c > 0 {
      FilledGrows(j, c - 1);
      LengthStep(j, c);
    }
  }

  /** 2^c - 1 - c for the sub-tables of inflate. */
  lemma OpenMost(c: nat)
    ensures c <= 6 ==> Pow2(c) - 1 - c <= 57
    ensures c <= 9 ==> Pow2(c) - 1 - c <= 502
    ensures Pow2(5) == 32 && Pow2(6) == 64 && Pow2(8) == 256 && Pow2(9) == 512
  {
    assert Pow2(4) == 16 && Pow2(5) == 32 && Pow2(6) == 64 && Pow2(7) == 128;
    assert Pow2(8) == 256 && Pow2(9) == 512;
    assert Pow2(0) == 1 && Pow2(1) == 2 && Pow2(2) == 4 && Pow2(3) == 8;
    assert c == 0 || c == 1 || c == 2 || c == 3 || c == 4 || c == 5 || c == 6 || c == 7 || c == 8 || c == 9 || c > 9;
  }

  /** The literal/length code: 286 symbols, a root of 9 bits, codes of at most 15. */
  lemma EnoughLens(j: Job)
    requires CompleteJob(j) && j.root == 9 && |j.lens| <= 286
    ensures Total(j) <= 852
  {
    hide Kraft, SubTotal, Below, Pow2, Ones, Occupied;
    AllRoom(j);
    OpenMost(j.top - j.root);
    var o := Occupied(j.lens, j.root);
    if o < 512 {
      OnesTop(o, 8);
      SomeOnes(o - 256);
    }
  }

  /** The distance code: 30 symbols, a root of 6 bits, codes of at most 15. */
  lemma EnoughDists(j: Job)
    requires CompleteJob(j) && j.root == 6 && |j.lens| <= 30
    ensures Total(j) <= 592
  {
    hide Kraft, SubTotal, Below, Pow2, Ones, Occupied;
    AllRoom(j);
    OpenMost(j.top - j.root);
    var o := Occupied(j.lens, j.root);
    if o < 64 {
      OnesTop(o, 5);
      assert Pow2(4) == 16 by {
        PowFour();
      }
      OnesTop(o - 32, 4);
      SomeOnes(o - 48);
    }
  }

  lemma PowFour()
    ensures Pow2(4) == 16
  {
  }

  lemma {:induction false} SomeOnes(x: nat)
    ensures x > 0 ==> Ones(x) > 0
  {
    if x > 1 {
      SomeOnes(x / 2);
    }
  }

  // ---- for the calls inflate makes ----

  /** 286 literal/length codes with a root of 9 bits, or 30 distance codes with one of 6. */
  predicate AsInflate(ty: CodeType, lens: seq<byte>, bits: nat) {
    && (forall s :: 0 <= s < |lens| ==> lens[s] <= 15)
    && ((ty == Lens && bits == 9 && |lens| <= 286) || (ty == Dists && bits == 6 && |lens| <= 30))
  }

  function Most(ty: CodeType): nat {
    if ty == Lens then 852 else 592
  }

  /** A code in the root table alone. */
  lemma RootAlone(j: Job)
    requires forall s :: 0 <= s < |j.lens| ==> j.lens[s] <= j.root
    ensures Total(j) == Pow2(j.root)
  {
    hide Pow2;
    SubTotalGap(j, 0, Pow2(j.root));
    NoSubTotal(j);
  }

  lemma {:induction false} KraftAtMost(lens: seq<byte>, top: nat, min: nat)
    requires min <= top && forall s :: 0 <= s < |lens| && lens[s] > 0 ==> min <= lens[s]
    ensures Kraft(lens, top) <= |lens| * Pow2(top - min)
  {
    if lens != [] {
      var k := |lens| - 1;
      KraftAtMost(lens[..k], top, min);
      if 1 <= lens[k] <= top {
        Pow2Monotone(top - lens[k], top - min);
      }
      OneMoreTime(k, Pow2(top - min));
    }
  }

  /** A complete code whose shortest length is `min` has at least 2^min symbols. */
  lemma ShortestFits(lens: seq<byte>, top: nat, min: nat)
    requires min <= top && Kraft(lens, top) == Pow2(top)
    requires forall s :: 0 <= s < |lens| && lens[s] > 0 ==> min <= lens[s]
    ensures Pow2(min) <= |lens|
  {
    hide Kraft, Pow2;
    KraftAtMost(lens, top, min);
    Pow2Add(min, top - min);
    PowPositive(top - min);
    SameFactor(Pow2(min), |lens|, Pow2(top - min));
  }

  /** No table inflate asks for takes more room than ENOUGH_LENS or ENOUGH_DISTS. */
  lemma EnoughForInflate(ty: CodeType, lens: seq<byte>, bits: nat)
    requires AsInflate(ty, lens, bits) && !NoCodes(lens) && !Refused(ty, lens)
    ensures Total(JobOf(ty, lens, bits)) <= Most(ty)
  {
    hide Kraft, Pow2, Total, LongestOf, ShortestOf;
    var j, min, max := JobOf(ty, lens, bits), ShortestOf(lens), LongestOf(lens);
    LongestBounds(lens);
    ShortestBounds(lens);
    OpenMost(0);
    var s :| 0 <= s < |lens| && lens[s] > 0;
    if max <= bits || OnlyOneBit(lens) {
      RootAlone(j);
      Pow2Monotone(j.root, bits);
    } else {
      AtTop(lens, max);
      ShortestFits(lens, max, min);
      if min > bits {
        Pow2Monotone(bits, min);
      }
      if ty == Lens {
        EnoughLens(j);
      } else {
        EnoughDists(j);
      }
    }
  }

  /** So inflate_table gives up on a code exactly when its table takes all of that room. */
  lemma GivesUpAtMost(ty: CodeType, lens: seq<byte>, bits: nat)
    requires AsInflate(ty, lens, bits) && !NoCodes(lens) && !Refused(ty, lens)
    ensures TooMuch(ty, Total(JobOf(ty, lens, bits))) <==> Total(JobOf(ty, lens, bits)) == Most(ty)
  {
    hide Total, JobOf;
    EnoughForInflate(ty, lens, bits);
  }
}
