/** selectorMtf and selector have BZ_MAX_SELECTORS entries, the field that counts them fifteen bits. */
module SelectorBounds {
  import opened Base
  import opened BitString
  import opened BitIO
  import opened MoveToFront
  import opened MtfEncoder
  import opened BlockFormat
  import opened BlockReader
  import opened BlockRoundTrip

  /** The selectors stored so far lie inside both arrays. */
  ghost predicate Stored(p: Phase) {
    match p
    case Selector3(_, _, _, _, m, _) => |m| <= MAX_SELECTORS
    case Coding1(b, _) => |b.sel| <= MAX_SELECTORS
    case Coding2(b, _, _, _) => |b.sel| <= MAX_SELECTORS
    case Coding3(b, _, _, _) => |b.sel| <= MAX_SELECTORS
    case Mtf1(b, _, _, _) => |b.sel| <= MAX_SELECTORS
    case Mtf2(b, _, _, _, _, _) => |b.sel| <= MAX_SELECTORS
    case _ => true
  }

  /** Those of the block being read, and those still announced. */
  ghost predicate Bounded(p: Phase) {
    Stored(p) && (p.Selector3? ==> |p.mtf| < p.nSelectors <= MAX_SELECTORS)
  }

  lemma {:induction false} SelectorsShorter(pos: seq<int>, m: seq<nat>)
    ensures |Selectors(pos, m)| <= |m|
    decreases |m|
  {
    if !(m == [] || m[0] >= |pos| || pos[m[0]] < 0) {
      SelectorsShorter(Move(pos, m[0]), m[1..]);
    }
  }

  lemma NextSelectorBounded(hd: Header, used: UseMap, nGroups: nat, nSelectors: nat, m: seq<nat>)
    requires |m| <= nSelectors <= MAX_SELECTORS
    ensures Bounded(NextSelector(hd, used, nGroups, nSelectors, m))
  {
    hide Selectors;
    SelectorsShorter(Range(nGroups), m);
  }

  lemma {:induction false} NextGroupBounded(hd: Header, groups: seq<bool>, m: seq<bool>)
    ensures Bounded(NextGroup(hd, groups, m))
    decreases 256 - |m|
  {
    hide Used;
    if |m| < 256 && |m| % 16 == 0 && |m| / 16 < |groups| && !groups[|m| / 16] {
      NextGroupBounded(hd, groups, m + seq(16, _ => false));
    }
  }

  lemma SymbolBounded(b: Body, count: nat, row: seq<byte>, s: MtfList, zn: nat, zvec: nat)
    requires |b.sel| <= MAX_SELECTORS
    ensures Bounded(NextSymbol(b, count, s)) && Bounded(CheckCode(b, count, row, s, zn, zvec))
  {
    hide Lookup, LimitAt, Accept, Unranked;
  }

  /** Every step keeps the selectors inside their arrays, provided the field that counts them does. */
  lemma StepKeepsBounds(p: Phase, v: nat)
    requires Bounded(p) && (p.Selector2? ==> v <= MAX_SELECTORS)
    ensures Bounded(Step(p, v))
  {
    hide NextGroup, NextSelector, CheckCode, NextSymbol, MinLen;
    match p
    case Mapping1(hd, groups) => NextGroupBounded(hd, groups + [v == 1], []);
    case Mapping2(hd, groups, m) => NextGroupBounded(hd, groups, m + [v == 1]);
    case Selector2(hd, used, nGroups) => NextSelectorBounded(hd, used, nGroups, v, []);
    case Selector3(hd, used, nGroups, n, m, j) => NextSelectorBounded(hd, used, nGroups, n, m + [j]);
    case Coding2(b, nGroups, row, curr) => LengthBounded(b, nGroups, row + [curr], curr);
    case Mtf1(b, count, row, s) => SymbolBounded(b, count, row, s, MinLen(row), v);
    case Mtf2(b, count, row, s, zn, zvec) => SymbolBounded(b, count, row, s, zn, 2 * zvec + v);
    case _ =>
  }

  lemma LengthBounded(b: Body, nGroups: nat, row: seq<byte>, curr: byte)
    requires |b.sel| <= MAX_SELECTORS
    ensures Bounded(NextLength(b, nGroups, row, curr))
  {
    hide NextSymbol, Used;
    var b' := b.(lens := b.lens + [row]);
    SymbolBounded(b', 0, [], Idle(Range(256), []), 21, 0);
  }

  /** Every nSelectors field a run meets fits the arrays. */
  ghost predicate FieldsFit(p: Phase, b: Bits)
    decreases |b|
  {
    var n := Need(p);
    || n == 0
    || |b| < n
    || ((p.Selector2? ==> ToNat(b[..n]) <= MAX_SELECTORS) && FieldsFit(Step(p, ToNat(b[..n])), b[n..]))
  }

  /** On bits whose nSelectors fields all fit, no selector is ever stored outside the arrays. */
  lemma {:induction false} RunKeepsBounds(p: Phase, b: Bits)
    requires Bounded(p) && FieldsFit(p, b)
    ensures Bounded(Run(p, b).0)
    decreases |b|
  {
    hide Bounded, Step, Need, ToNat;
    var n := Need(p);
    if n != 0 && |b| >= n {
      StepKeepsBounds(p, ToNat(b[..n]));
      RunKeepsBounds(Step(p, ToNat(b[..n])), b[n..]);
    }
  }

  // ---- the condition is exact ----

  /** Past the selectors no nSelectors field is met before the block is complete. */
  ghost predicate Counted(p: Phase) {
    p.Selector3? || p.Coding1? || p.Coding2? || p.Coding3? || p.Mtf1? || p.Mtf2? || p.Output? || p.DataError?
  }

  lemma StepStaysCounted(p: Phase, v: nat)
    requires Counted(p)
    ensures Counted(Step(p, v)) && !p.Selector2?
  {
    hide Lookup, LimitAt, Accept, Unranked, Selectors, MinLen, Used;
  }

  lemma {:induction false} CountedRun(p: Phase, b: Bits)
    requires Counted(p)
    ensures FieldsFit(p, b)
    decreases |b|
  {
    hide Counted, Step, Need, ToNat;
    var n := Need(p);
    if n != 0 && |b| >= n {
      StepStaysCounted(p, ToNat(b[..n]));
      CountedRun(Step(p, ToNat(b[..n])), b[n..]);
    }
  }

  /** Selectors of value zero, k of them, and the bits that send them. */
  function ZeroSelectors(k: nat): (m: seq<nat>)
    ensures |m| == k && forall i :: 0 <= i < k ==> m[i] == 0
  {
    seq(k, _ => 0)
  }

  /** k clear bits store k selectors. */
  lemma {:induction false} ReadZeros(hd: Header, used: UseMap, nGroups: nat, n: nat, k: nat)
    requires k <= n && nGroups >= 1
    ensures Reads(NextSelector(hd, used, nGroups, n, []), Zeros(k),
        NextSelector(hd, used, nGroups, n, ZeroSelectors(k)))
  {
    hide Reads;
    var start := NextSelector(hd, used, nGroups, n, []);
    if k == 0 {
      assert Zeros(0) == [] && ZeroSelectors(0) == [];
      ReadNothing(start);
    } else {
      ReadZeros(hd, used, nGroups, n, k - 1);
      var m := ZeroSelectors(k - 1);
      ReadUnary(hd, used, nGroups, n, m, 0, 0);
      assert m + [0] == ZeroSelectors(k) && Zeros(k) == Zeros(k - 1) + [false];
      ReadsConcat(start, Zeros(k - 1), NextSelector(hd, used, nGroups, n, m), [false],
                  NextSelector(hd, used, nGroups, n, ZeroSelectors(k)));
    }
  }

  lemma {:induction false} ZerosUndone(pos: seq<int>, m: seq<nat>)
    requires pos != [] && (forall i :: 0 <= i < |pos| ==> pos[i] >= 0) && forall i :: 0 <= i < |m| ==> m[i] == 0
    ensures |Selectors(pos, m)| == |m|
    decreases |m|
  {
    if m != [] {
      assert Move(pos, 0) == pos;
      ZerosUndone(pos, m[1..]);
    }
  }

  /** A field larger than the arrays, followed by enough selectors: they no longer fit. */
  lemma FieldTooLarge(hd: Header, used: UseMap, nGroups: nat, v: nat)
    requires v > MAX_SELECTORS && nGroups >= 1
    ensures !Stored(Run(Step(Selector2(hd, used, nGroups), v), Zeros(MAX_SELECTORS + 1)).0)
  {
    hide Reads, Run, Selectors;
    var k := MAX_SELECTORS + 1;
    var q := NextSelector(hd, used, nGroups, v, ZeroSelectors(k));
    ReadZeros(hd, used, nGroups, v, k);
    ReadsRun(NextSelector(hd, used, nGroups, v, []), Zeros(k), q, []);
    assert Zeros(k) + [] == Zeros(k);
    ZerosUndone(Range(nGroups), ZeroSelectors(k));
    NoBitsLeft(q);
  }

  lemma NoBitsLeft(q: Phase)
    ensures Run(q, []) == (q, [])
  {
  }

  /** The start of a stream of one block, all bytes in use and two tables, up to its first `k` selectors. */
  function Overrun(v: nat, k: nat): Bits {
    HeaderBits(1) + (BytesToBits(BLOCK_MAGIC) + (ToBits(0, 32) + ([false] + (ToBits(0, 24)
      + (MapBits(AllUsed()) + (ToBits(2, 3) + (ToBits(v, 15) + Zeros(k))))))))
  }

  function AllUsed(): UseMap {
    seq(256, _ => true)
  }

  lemma SomeUsed()
    ensures Used(AllUsed(), 256) != []
  {
  }

  /** Its bits lead the decoder to where it has `k` selectors. */
  lemma ReadOverrun(v: nat, k: nat)
    requires 1 <= v < 32768 && k <= v
    ensures Reads(Magic(0), Overrun(v, k), NextSelector(Header(1, 0, false, 0), AllUsed(), 2, v, ZeroSelectors(k)))
  {
    hide Reads, NextSelector, Used, HeaderBits, MapBits, BytesToBits, Pow2, ToBits;
    var hd, used := Header(1, 0, false, 0), AllUsed();
    var q := NextSelector(hd, used, 2, v, ZeroSelectors(k));
    SomeUsed();
    Pow2Values();
    ReadZeros(hd, used, 2, v, k);
    ReadCounts(hd, used, 2, v, Zeros(k), q);
    ReadMapping(hd, used);
    var tail := ToBits(2, 3) + (ToBits(v, 15) + Zeros(k));
    ReadsConcat(Mapping1(hd, []), MapBits(used), Selector1(hd, used), tail, q);
    ReadBlockHeader(1, 0, 0, MapBits(used) + tail, q);
    ReadHeader(1);
    ReadsConcat(Magic(0), HeaderBits(1), BlkHdr(1, 0), BytesToBits(BLOCK_MAGIC) + (ToBits(0, 32) + ([false]
      + (ToBits(0, 24) + (MapBits(used) + tail)))), q);
  }

  /** The largest value the field can hold, from the first bit of a stream on: the arrays are overrun. */
  lemma LargestFieldFails()
    ensures !Stored(Run(Magic(0), Overrun(32767, MAX_SELECTORS + 1)).0)
  {
    hide Reads, Run, Selectors, Overrun;
    var k := MAX_SELECTORS + 1;
    var q := NextSelector(Header(1, 0, false, 0), AllUsed(), 2, 32767, ZeroSelectors(k));
    ReadOverrun(32767, k);
    ReadsRun(Magic(0), Overrun(32767, k), q, []);
    assert Overrun(32767, k) + [] == Overrun(32767, k);
    NoBitsLeft(q);
  }

  /**
   * The exact condition: the selectors of a block stay inside the arrays, whatever
   * bits follow, if and only if the nSelectors field is at most BZ_MAX_SELECTORS.
   */
  lemma SelectorsFitIffField(hd: Header, used: UseMap, nGroups: nat, v: nat)
    requires nGroups >= 1
    ensures (forall b: Bits :: Stored(Run(Step(Selector2(hd, used, nGroups), v), b).0)) <==> v <= 2 + 900000 / 50
  {
    hide Run, Selectors;
    var p := Step(Selector2(hd, used, nGroups), v);
    if v <= MAX_SELECTORS {
      forall b: Bits
        ensures Stored(Run(p, b).0)
      {
        StepKeepsBounds(Selector2(hd, used, nGroups), v);
        CountedRun(p, b);
        RunKeepsBounds(p, b);
      }
    } else {
      FieldTooLarge(hd, used, nGroups, v);
    }
  }
}
