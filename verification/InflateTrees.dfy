/** inflate_table from end to end: when it refuses, when it runs out of space, and what it leaves otherwise. */
module InflateTrees {
  import opened Base
  import opened BitString
  import opened Radix
  import opened InverseBwt
  import opened CanonicalCode
  import opened LsbCode
  import opened InflateTable
  import opened SubTables
  import opened TableSize
  import opened InflateBuild
  import opened InflateLookup

  datatype Result = Invalid | NotEnough | Built(bits: nat, used: nat)

  /** The marker of an invalid code. */
  function BadCode(bits: nat): Slot {
    Entry(64, bits, 0)
  }

  /** The sets of lengths inflate_table refuses: over-subscribed, or incomplete unless it is a single one-bit code. */
  ghost predicate Refused(ty: CodeType, lens: seq<byte>) {
    && !NoCodes(lens)
    && (Kraft(lens, MAXBITS) > Pow2(MAXBITS)
      || (Kraft(lens, MAXBITS) < Pow2(MAXBITS) && (ty == Codes || !OnlyOneBit(lens))))
  }

  /** What the lengths promise at their own maximum. */
  lemma AtTop(lens: seq<byte>, top: nat)
    requires (forall s :: 0 <= s < |lens| ==> lens[s] <= top) && top <= MAXBITS
    ensures Kraft(lens, MAXBITS) <= Pow2(MAXBITS) <==> Kraft(lens, top) <= Pow2(top)
    ensures Kraft(lens, MAXBITS) == Pow2(MAXBITS) <==> Kraft(lens, top) == Pow2(top)
  {
    hide Kraft, Pow2;
    var d := MAXBITS - top;
    KraftScales(lens, top, d);
    Pow2Add(top, d);
    PowPositive(d);
    assert top + d == MAXBITS;
    SameFactor(Kraft(lens, top), Pow2(top), Pow2(d));
  }

  lemma SameFactor(a: nat, b: nat, c: nat)
    requires c > 0
    ensures a * c <= b * c <==> a <= b
    ensures a * c == b * c <==> a == b
  {
    if a < b {
      LargerProduct(b, a, c);
    } else if b < a {
      LargerProduct(a, b, c);
    }
  }

  lemma AllEntered(j: Job, work: seq<nat>, t: seq<Slot>, b: Option<Sub>)
    requires Entered(j, work, t, |work|, b)
    ensures AllFindable(j, t)
  {
    hide Kraft, Pow2, Findable, LastToFirst, Below, Current, Before;
    forall s | Coded(j, s)
      ensures Findable(j, t, s)
    {
      var k := Listed(j.lens, work, s);
    }
  }

  lemma FirstIsShortest(j: Job, work: seq<nat>, min: nat)
    requires Sorted(j.lens, work) && min in multiset(j.lens) && min > 0
    requires forall s :: 0 <= s < |j.lens| && j.lens[s] > 0 ==> min <= j.lens[s]
    ensures work != [] && work[0] < |j.lens| && j.lens[work[0]] == min
  {
    hide LastToFirst, Below;
    var s :| 0 <= s < |j.lens| && j.lens[s] == min;
    var k := Listed(j.lens, work, s);
    if k > 0 {
      WorkOrder(j.lens, work, 0, k);
    }
  }

  /** After the last code of a complete set huff is back at zero. */
  lemma HuffWraps(j: Job, work: seq<nat>)
    requires Good(j) && Sorted(j.lens, work) && work != [] && j.top in multiset(j.lens)
    requires Kraft(j.lens, j.top) == Pow2(j.top)
    ensures LsbNat(Inc(CodeBits(j.lens, work[|work| - 1]))) == 0
  {
    hide LastToFirst, Below, Kraft, Pow2, Occupied, LsbNat, Inc, CodeBits;
    var k := |work| - 1;
    var s :| 0 <= s < |j.lens| && j.lens[s] == j.top;
    var i := Listed(j.lens, work, s);
    if i < k {
      WorkOrder(j.lens, work, i, k);
    }
    BelowTop(j.lens, j.top);
    OccupiedIsKraft(j.lens, j.top);
    RankOf(j.lens, work, k);
    LastBits(j.lens, work[k], j.top);
  }

  lemma RankOf(lens: seq<byte>, work: seq<nat>, k: nat)
    requires Sorted(lens, work) && k < |work|
    ensures LastToFirst(lens, work[k]) == Below(lens, 1) + k && |work| == |lens| - Below(lens, 1)
  {
  }

  /** The only incomplete code that gets this far: one symbol, one bit. */
  lemma SingleCode(j: Job, work: seq<nat>)
    requires Good(j) && Sorted(j.lens, work) && work != [] && j.top == 1 && Kraft(j.lens, 1) < Pow2(1)
    ensures |work| == 1 && CodeBits(j.lens, work[0]) == [false] && LsbNat(Inc([false])) == 1
  {
    hide LastToFirst;
    OccupiedIsKraft(j.lens, 1);
    assert Occupied(j.lens, 1) == multiset(j.lens)[1];
    BelowTop(j.lens, 1);
    BelowStep(j.lens, 1);
    assert |work| == multiset(j.lens)[1] == 1;
    RankOf(j.lens, work, 0);
    FirstCode(j.lens, work[0]);
    assert j.lens[work[0]] == 1;
    assert ToBits(0, 1) == [false];
    assert Inc([false]) == [true];
    LsbPush([], true);
    assert [] + [true] == [true];
    LsbNothing();
  }

  lemma KeyOfZero(lens: seq<byte>, s: nat)
    requires s < |lens| && CodeBits(lens, s) == [false]
    ensures Key(lens, s) == 0
  {
    hide CodeBits;
    LsbPush([], false);
    assert [] + [false] == [false];
    LsbNothing();
  }

  /** Marking the slot the single code leaves free. */
  lemma MarkSpare(j: Job, t: seq<Slot>, work: seq<nat>)
    requires AllFindable(j, t) && j.root == j.top == 1 && Sorted(j.lens, work) && |work| == 1
    requires CodeBits(j.lens, work[0]) == [false]
    ensures |t| >= 2 && AllFindable(j, t[1 := BadCode(1)])
  {
    hide LastToFirst, Below, Kraft, Key, Leaf, CodeBits;
    PowTwo();
    var u := t[1 := BadCode(1)];
    forall s | Coded(j, s)
      ensures Findable(j, u, s)
    {
      var k := Listed(j.lens, work, s);
      KeyOfZero(j.lens, s);
      assert InRoot(j, t, s);
      assert u[0] == t[0];
    }
  }

  lemma PowTwo()
    ensures Pow2(1) == 2
  {
  }

  /** root within the code lengths. */
  function RootBits(bits: nat, min: nat, max: nat): nat {
    var r := if bits > max then max else bits;
    if r < min then min else r
  }

  /** A table with no code at all: both one-bit codes are errors. */
  method EmptyTable(table: array<Slot>)
    requires table.Length >= 2
    modifies table
    ensures table[..2] == [BadCode(1), BadCode(1)]
  {
    table[0] := BadCode(1);
    table[1] := BadCode(1);
  }

  // ---- the job a call does ----

  /** The longest length. */
  function LongestOf(lens: seq<byte>): nat {
    if lens == [] then 0
    else
      var m := LongestOf(lens[..|lens| - 1]);
      if lens[|lens| - 1] > m then lens[|lens| - 1] else m
  }

  /** The shortest length but zero; zero if there is none. */
  function ShortestOf(lens: seq<byte>): nat {
    if lens == [] then 0
    else
      var m, x := ShortestOf(lens[..|lens| - 1]), lens[|lens| - 1];
      if x > 0 && (m == 0 || x < m) then x else m
  }

  lemma {:induction false} LongestBounds(lens: seq<byte>)
    ensures (forall s :: 0 <= s < |lens| ==> lens[s] <= LongestOf(lens))
    ensures (LongestOf(lens) > 0 ==> LongestOf(lens) in lens)
  {
    if lens != [] {
      var k := |lens| - 1;
      LongestBounds(lens[..k]);
      assert lens == lens[..k] + [lens[k]];
    }
  }

  lemma {:induction false} ShortestBounds(lens: seq<byte>)
    ensures forall s :: 0 <= s < |lens| && lens[s] > 0 ==> 0 < ShortestOf(lens) <= lens[s]
    ensures ShortestOf(lens) > 0 ==> ShortestOf(lens) in lens
  {
    if lens != [] {
      var k := |lens| - 1;
      ShortestBounds(lens[..k]);
      assert lens == lens[..k] + [lens[k]];
    }
  }

  lemma ExtremesAre(lens: seq<byte>, min: nat, max: nat)
    requires max > 0 && max in multiset(lens) && min in multiset(lens) && min > 0
    requires forall s :: 0 <= s < |lens| ==> lens[s] <= max && (lens[s] > 0 ==> min <= lens[s])
    ensures LongestOf(lens) == max && ShortestOf(lens) == min
  {
    hide LongestOf, ShortestOf;
    LongestBounds(lens);
    ShortestBounds(lens);
    var s :| 0 <= s < |lens| && lens[s] == max;
    var t :| 0 <= t < |lens| && lens[t] == min;
  }

  /** The code with its table: root bits within the lengths in use. */
  function JobOf(ty: CodeType, lens: seq<byte>, bits: nat): Job {
    Job(lens, ty, RootBits(bits, ShortestOf(lens), LongestOf(lens)), LongestOf(lens))
  }

  /**
   * inflate_table. It refuses exactly the sets of lengths that are no code, and gives up exactly when the root
   * table and the sub-tables, each as wide as the longest code in it, take too much room. When it builds a table,
   * every symbol with a code can be found in it, and it takes just that room.
   */
  method BuildTable(ty: CodeType, lens: seq<byte>, bits: nat, table: array<Slot>) returns (r: Result)
    requires |lens| <= MaxSymbols(ty) && (forall s :: 0 <= s < |lens| ==> lens[s] <= MAXBITS)
    requires table.Length >= Room(ty)
    requires !NoCodes(lens) && !Refused(ty, lens) ==> Roomy(JobOf(ty, lens, bits), table.Length)
    modifies table
    ensures r.Invalid? <==> Refused(ty, lens)
    ensures r.NotEnough? <==> !NoCodes(lens) && !Refused(ty, lens) && TooMuch(ty, Total(JobOf(ty, lens, bits)))
    ensures NoCodes(lens) ==> r == Built(1, 2) && table[..2] == [BadCode(1), BadCode(1)]
    ensures r.Built? && !NoCodes(lens) ==> var j := JobOf(ty, lens, bits);
      r == Built(j.root, Total(j)) && r.used <= table.Length && AllFindable(j, table[..])
    ensures r.Built? && !NoCodes(lens) && Kraft(lens, MAXBITS) == Pow2(MAXBITS) ==>
      Kraft(lens, LongestOf(lens)) == Pow2(LongestOf(lens))
    ensures r.Built? && !NoCodes(lens) && Kraft(lens, MAXBITS) < Pow2(MAXBITS) ==> r.bits == 1 && table[1] == BadCode(1)
  {
    hide Kraft, Pow2, AllFindable, Sorted, LastToFirst, Below, CodesLeft, Entered, LsbNat, Inc, CodeBits, Total;
    hide ShortestOf, LongestOf;
    var count := CountLens(lens);
    var min, max := LengthBounds(count[..], lens);
    if max == 0 {
      EmptyTable(table);
      r := Built(1, 2);
      return;
    }
    SomeCode(lens, max);
    var left := StringsLeft(count[..], lens);
    if left < 0 || (left > 0 && (ty == Codes || max != 1)) {
      r := Invalid;
      return;
    }
    AtTop(lens, max);
    AllRemain(count[..], lens);
    var work := SortSymbols(count[..], lens);
    var j := Job(lens, ty, RootBits(bits, min, max), max);
    ExtremesAre(lens, min, max);
    FirstIsShortest(j, work, min);
    var full, used, huff := FillTable(table, j, work, count);
    if full {
      r := NotEnough;
      return;
    }
    ghost var b: Option<Sub> :| Entered(j, work, table[..], |work|, b) && used == Free(j, b);
    AllEntered(j, work, table[..], b);
    FinishTable(table, j, work, huff, left);
    r := Built(j.root, used);
  }

  lemma SomeCode(lens: seq<byte>, max: nat)
    requires max > 0 && max in multiset(lens) && forall s :: 0 <= s < |lens| ==> lens[s] <= max
    ensures !NoCodes(lens) && (max == 1 <==> OnlyOneBit(lens))
  {
    var s :| 0 <= s < |lens| && lens[s] == max;
  }

  /** The code-length code of inflate.c: lengths of three bits and seven root bits need 128 slots at most. */
  lemma CodesNeedLittle(lens: seq<byte>, bits: nat)
    requires bits >= 7 && |lens| <= 19 && (forall s :: 0 <= s < |lens| ==> lens[s] <= 7) && !NoCodes(lens)
    ensures Roomy(JobOf(Codes, lens, bits), 128)
  {
    hide Pow2, LongestOf, ShortestOf, SubTotal;
    LongestBounds(lens);
    ShortestBounds(lens);
    var j := JobOf(Codes, lens, bits);
    var s :| 0 <= s < |lens| && lens[s] != 0;
    assert j.root == j.top <= 7;
    NoSubTables(j, Pow2(j.root));
    Pow2Monotone(j.root, 7);
    SevenBits();
  }

  lemma SevenBits()
    ensures Pow2(7) == 128
  {
  }

  /** Without codes beyond the root table there are no sub-tables. */
  lemma {:induction false} NoSubTables(j: Job, n: nat)
    requires forall s :: 0 <= s < |j.lens| ==> j.lens[s] <= j.root
    ensures SubTotal(j, n) == 0
    decreases n
  {
    hide Pre, Reach;
    if n > 0 {
      NoSubTables(j, n - 1);
      ReachBounds(j, n - 1, |j.lens|);
    }
  }

  /** The loop after the main loop: mark the one slot an incomplete code leaves. */
  method FinishTable(table: array<Slot>, j: Job, work: seq<nat>, huff: nat, left: int)
    requires AllFindable(j, table[..]) && Sorted(j.lens, work) && work != [] && j.top in multiset(j.lens) && Good(j)
    requires huff == LsbNat(Inc(CodeBits(j.lens, work[|work| - 1])))
    requires left >= 0 && (left == 0 ==> Kraft(j.lens, j.top) == Pow2(j.top))
    requires (left > 0 ==> j.top == 1 && Kraft(j.lens, 1) < Pow2(1))
    modifies table
    ensures AllFindable(j, table[..]) && (left > 0 ==> table.Length >= 2 && table[1] == BadCode(1))
  {
    hide Kraft, Pow2, AllFindable, Sorted, LastToFirst, Below, LsbNat, Inc, CodeBits;
    if left == 0 {
      HuffWraps(j, work);
    } else {
      SingleCode(j, work);
      MarkSpare(j, table[..], work);
    }
    if huff != 0 {
      ghost var t := table[..];
      table[huff] := BadCode(1);
      assert table[..] == t[1 := BadCode(1)];
    }
  }
}
