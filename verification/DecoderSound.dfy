/** What BZ2_decompress keeps in every state it can reach, whatever bits it is fed. */
module DecoderSound {
  import opened Base
  import opened BitString
  import opened Radix
  import opened BlockVectors
  import opened MoveToFront
  import opened MtfEncoder
  import opened CanonicalCode
  import opened BlockFormat
  import opened BlockReader
  import opened BlockRoundTrip

  ghost predicate HeaderOk(hd: Header) {
    1 <= hd.level <= 9
  }

  /** Selectors name tables, and the tables read so far have all their lengths in 1..20. */
  ghost predicate BodyOk(b: Body, nGroups: nat) {
    && HeaderOk(b.hd) && 2 <= nGroups <= MAX_GROUPS && |b.lens| <= nGroups && Used(b.used, 256) != []
    && (forall i :: 0 <= i < |b.sel| ==> b.sel[i] < nGroups)
    && (forall t :: 0 <= t < |b.lens| ==> |b.lens[t]| == AlphaSize(b.used) && InRange(b.lens[t]))
  }

  /** The move-to-front decoder only ever meets bytes in use, and es cannot overflow an Int32. */
  ghost predicate MtfOk(s: MtfState, n: nat, limit: nat) {
    && |s.list| == 256 && 0 < n <= 256 && |s.column| <= limit
    && (forall i :: 0 <= i < n ==> 0 <= s.list[i] < n)
    && (forall i :: 0 <= i < |s.column| ==> 0 <= s.column[i] < n)
    && 1 <= s.weight <= 2 * WEIGHT_LIMIT && -1 <= s.es && s.es + 1 <= 2 * (s.weight - 1)
  }

  ghost predicate SymbolsOk(b: Body, s: MtfState) {
    BodyOk(b, |b.lens|) && MtfOk(s, |Used(b.used, 256)|, 100000 * b.hd.level)
  }

  ghost predicate Sound(p: Phase) {
    match p
    case BlkHdr(level, _) => 1 <= level <= 9
    case BlkCrc(level, _, _) => 1 <= level <= 9
    case RandBit(level, _) => 1 <= level <= 9
    case OrigPtr(hd, _) => HeaderOk(hd)
    case Mapping1(hd, _) => HeaderOk(hd)
    case Mapping2(hd, _, _) => HeaderOk(hd)
    case Selector1(hd, used) => HeaderOk(hd) && Used(used, 256) != []
    case Selector2(hd, used, nGroups) => HeaderOk(hd) && Used(used, 256) != [] && 2 <= nGroups <= MAX_GROUPS
    case Selector3(hd, used, nGroups, nSelectors, m, j) =>
      && HeaderOk(hd) && Used(used, 256) != [] && 2 <= nGroups <= MAX_GROUPS && j < nGroups && |m| < nSelectors
      && (forall i :: 0 <= i < |m| ==> m[i] < nGroups)
    case Coding1(b, nGroups) => BodyOk(b, nGroups) && |b.lens| < nGroups
    case Coding2(b, nGroups, row, curr) => BodyOk(b, nGroups) && |b.lens| < nGroups && RowOk(b, row, curr)
    case Coding3(b, nGroups, row, curr) => BodyOk(b, nGroups) && |b.lens| < nGroups && RowOk(b, row, curr)
    case Mtf1(b, _, row, s) => SymbolsOk(b, s) && |row| == AlphaSize(b.used) && InRange(row)
    case Mtf2(b, _, row, s, zn, zvec) =>
      && SymbolsOk(b, s) && |row| == AlphaSize(b.used) && InRange(row)
      && MinLen(row) < zn <= 21 && zvec > LimitAt(row, zn - 1)
    case Output(hd, column) => HeaderOk(hd) && hd.origPtr < |column| <= 100000 * hd.level
    case _ => true
  }

  ghost predicate RowOk(b: Body, row: seq<byte>, curr: byte) {
    |row| < AlphaSize(b.used) && InRange(row) && 1 <= curr <= 20
  }

  // ---- the limit/base/perm lookup never leaves the table ----

  lemma {:induction false} MaxReached(row: seq<byte>)
    requires row != [] && InRange(row)
    ensures MaxLen(row) in multiset(row)
  {
    if |row| > 1 {
      var k := |row| - 1;
      MaxReached(row[..k]);
      assert row == row[..k] + [row[k]];
    } else {
      assert row == [row[0]] && row[..0] == [];
    }
  }

  lemma {:induction false} NoCodeShorter(row: seq<byte>, n: nat)
    requires n < MinLen(row)
    ensures Occupied(row, n) == 0
  {
    forall i | 0 <= i < |row|
      ensures MinLen(row) <= row[i]
    {
      LenBounds(row, i);
    }
    OccupiedBelow(row, MinLen(row), n);
  }

  /**
   * A code that passes the limit test after failing it at every shorter length lies in its own length's
   * share of perm.
   */
  lemma LookupInRange(row: seq<byte>, n: nat, zvec: nat)
    requires row != [] && InRange(row) && MinLen(row) <= n && zvec <= LimitAt(row, n)
    requires n > MinLen(row) ==> zvec >= 2 * (LimitAt(row, n - 1) + 1)
    ensures n <= MaxLen(row) && Below(row, n) <= zvec - BaseAt(row, n) < Below(row, n + 1) <= |row|
  {
    hide MinLen, MaxLen, InRange;
    LenReached(row);
    LimitNonNegative(row);
    if n <= MaxLen(row) {
      BelowMonotone(row, n + 1, 256);
      BelowAll(row);
      if n == MinLen(row) {
        NoCodeShorter(row, n - 1);
      }
    }
  }

  lemma LimitNonNegative(row: seq<byte>)
    requires row != [] && InRange(row)
    ensures forall n: nat :: MaxLen(row) <= n ==> LimitAt(row, n) >= 0
  {
    MaxReached(row);
  }

  lemma LookupSymbol(row: seq<byte>, n: nat, zvec: nat)
    requires 0 <= zvec - BaseAt(row, n) < |row|
    ensures Lookup(row, n, zvec).Some? && Lookup(row, n, zvec).value < |row|
  {
    hide BaseAt;
    TVectorInverts(row);
  }

  // ---- the move-to-front decoder ----

  lemma MoveKeepsFront(list: seq<int>, k: nat, n: nat)
    requires k < n <= |list| && forall i :: 0 <= i < n ==> 0 <= list[i] < n
    ensures forall i :: 0 <= i < n ==> 0 <= Move(list, k)[i] < n
  {
  }

  lemma EndRunOk(s: MtfState, n: nat, limit: nat)
    requires MtfOk(s, n, limit) && EndRun(s, limit).More?
    ensures MtfOk(EndRun(s, limit).state, n, limit) && EndRun(s, limit).state.weight == 1
  {
  }

  lemma AcceptOk(s: MtfState, sym: nat, n: nat, limit: nat)
    requires MtfOk(s, n, limit) && sym <= n + 1
    ensures var r := Accept(s, sym, n + 1, limit);
      && (r.More? ==> MtfOk(r.state, n, limit))
      && (r.Finished? ==> |r.column| <= limit && forall i :: 0 <= i < |r.column| ==> 0 <= r.column[i] < n)
  {
    if sym != RUNA && sym != RUNB && EndRun(s, limit).More? {
      EndRunOk(s, n, limit);
      var t := EndRun(s, limit).state;
      if sym != n + 1 {
        MoveKeepsFront(t.list, sym - 1, n);
      }
    }
  }

  // ---- every step ----

  lemma NextSymbolSound(b: Body, count: nat, s: MtfList)
    requires SymbolsOk(b, s)
    ensures Sound(NextSymbol(b, count, s))
  {
  }

  lemma StartSymbols(b: Body)
    requires BodyOk(b, |b.lens|)
    ensures SymbolsOk(b, Idle(Range(256), []))
  {
  }

  lemma TakeSymbolSound(b: Body, count: nat, s: MtfList, sym: nat)
    requires SymbolsOk(b, s) && sym < AlphaSize(b.used)
    ensures Sound(TakeSymbol(b, count, s, sym))
  {
    hide BodyOk, MtfOk, Accept, Unranked;
    var n, limit := |Used(b.used, 256)|, 100000 * b.hd.level;
    AcceptOk(s, sym, n, limit);
    var r := Accept(s, sym, n + 1, limit);
    if r.More? {
      NextSymbolSound(b, count + 1, r.state);
    }
    BodyHeader(b);
  }

  lemma BodyHeader(b: Body)
    requires BodyOk(b, |b.lens|)
    ensures HeaderOk(b.hd)
  {
  }

  lemma CheckCodeSound(b: Body, count: nat, row: seq<byte>, s: MtfList, zn: nat, zvec: nat)
    requires SymbolsOk(b, s) && |row| == AlphaSize(b.used) && InRange(row) && MinLen(row) <= zn <= 21
    requires zn > MinLen(row) ==> zvec >= 2 * (LimitAt(row, zn - 1) + 1)
    ensures Sound(CheckCode(b, count, row, s, zn, zvec))
    ensures zn <= 20 && zvec <= LimitAt(row, zn) ==> Lookup(row, zn, zvec).Some?
  {
    hide SymbolsOk, LimitAt, MinLen, Lookup, TakeSymbol, InRange, BaseAt;
    if zn <= 20 && zvec <= LimitAt(row, zn) {
      LookupInRange(row, zn, zvec);
      LookupSymbol(row, zn, zvec);
      TakeSymbolSound(b, count, s, Lookup(row, zn, zvec).value);
    }
  }

  lemma {:induction false} NextGroupSound(hd: Header, groups: seq<bool>, m: seq<bool>)
    requires HeaderOk(hd)
    ensures Sound(NextGroup(hd, groups, m))
    decreases 256 - |m|
  {
    hide Used;
    if |m| < 256 && |m| % 16 == 0 && |m| / 16 < |groups| && !groups[|m| / 16] {
      NextGroupSound(hd, groups, m + seq(16, _ => false));
    }
  }

  lemma {:induction false} SelectorsInRange(pos: seq<int>, m: seq<nat>)
    requires forall i :: 0 <= i < |pos| ==> 0 <= pos[i] < |pos|
    ensures forall i :: 0 <= i < |Selectors(pos, m)| ==> Selectors(pos, m)[i] < |pos|
    decreases |m|
  {
    if !(m == [] || m[0] >= |pos| || pos[m[0]] < 0) {
      MoveKeepsFront(pos, m[0], |pos|);
      SelectorsInRange(Move(pos, m[0]), m[1..]);
    }
  }

  lemma NextSelectorSound(hd: Header, used: UseMap, nGroups: nat, nSelectors: nat, m: seq<nat>)
    requires HeaderOk(hd) && Used(used, 256) != [] && 2 <= nGroups <= MAX_GROUPS
    requires forall i :: 0 <= i < |m| ==> m[i] < nGroups
    ensures Sound(NextSelector(hd, used, nGroups, nSelectors, m))
  {
    hide Used, Selectors;
    SelectorsInRange(Range(nGroups), m);
  }

  lemma NextLengthSound(b: Body, nGroups: nat, row: seq<byte>, curr: byte)
    requires BodyOk(b, nGroups) && |b.lens| < nGroups && |row| <= AlphaSize(b.used) && InRange(row) && 1 <= curr <= 20
    ensures Sound(NextLength(b, nGroups, row, curr))
  {
    hide Used, NextSymbol;
    if |row| == AlphaSize(b.used) {
      var b' := b.(lens := b.lens + [row]);
      assert BodyOk(b', nGroups);
      if |b'.lens| == nGroups {
        StartSymbols(b');
        NextSymbolSound(b', 0, Idle(Range(256), []));
      }
    }
  }

  lemma BodyAlpha(b: Body, nGroups: nat)
    requires BodyOk(b, nGroups)
    ensures AlphaSize(b.used) >= 3
  {
  }

  lemma HeaderStepSound(p: Phase, v: nat)
    requires Sound(p)
    requires (p.Magic? || p.Level? || p.BlkHdr? || p.BlkCrc? || p.RandBit? || p.OrigPtr? || p.EndHdr? || p.CombCrc?)
    ensures Sound(Step(p, v))
  {
  }

  lemma TableStepSound(p: Phase, v: nat)
    requires Sound(p) && (p.Mapping1? || p.Mapping2? || p.Selector1? || p.Selector2? || p.Selector3?)
    ensures Sound(Step(p, v))
  {
    hide Used, NextGroup, NextSelector;
    match p
    case Mapping1(hd, groups) => NextGroupSound(hd, groups + [v == 1], []);
    case Mapping2(hd, groups, m) => NextGroupSound(hd, groups, m + [v == 1]);
    case Selector2(hd, used, nGroups) => NextSelectorSound(hd, used, nGroups, v, []);
    case Selector3(hd, used, nGroups, n, m, j) => NextSelectorSound(hd, used, nGroups, n, m + [j]);
    case Selector1(_, _) =>
  }

  lemma LengthStepSound(p: Phase, v: nat)
    requires Sound(p) && (p.Coding1? || p.Coding2? || p.Coding3?)
    ensures Sound(Step(p, v))
  {
    hide NextLength, BodyOk, AlphaSize;
    match p
    case Coding1(b, nGroups) => BodyAlpha(b, nGroups);
    case Coding2(b, nGroups, row, curr) => NextLengthSound(b, nGroups, row + [curr], curr);
    case Coding3(_, _, _, _) =>
  }

  lemma SymbolStepSound(p: Phase, v: nat)
    requires Sound(p) && (p.Mtf1? || p.Mtf2?)
    ensures Sound(Step(p, v))
  {
    hide CheckCode, SymbolsOk, LimitAt, MinLen, InRange, AlphaSize;
    match p
    case Mtf1(b, count, row, s) =>
      RowNeed(b, row, s);
      CheckCodeSound(b, count, row, s, MinLen(row), v);
    case Mtf2(b, count, row, s, zn, zvec) => CheckCodeSound(b, count, row, s, zn, 2 * zvec + v);
  }

  lemma RowNeed(b: Body, row: seq<byte>, s: MtfState)
    requires SymbolsOk(b, s) && |row| == AlphaSize(b.used) && InRange(row)
    ensures 1 <= MinLen(row) <= 20
  {
    LenReached(row);
  }

  /** Soundness is kept by every step, on any bits at all. */
  lemma StepKeepsSound(p: Phase, v: nat)
    requires Sound(p)
    ensures Sound(Step(p, v))
  {
    hide Sound, Step;
    match p {
      case Magic(_) => HeaderStepSound(p, v);
      case Level => HeaderStepSound(p, v);
      case BlkHdr(_, _) => HeaderStepSound(p, v);
      case BlkCrc(_, _, _) => HeaderStepSound(p, v);
      case RandBit(_, _) => HeaderStepSound(p, v);
      case OrigPtr(_, _) => HeaderStepSound(p, v);
      case EndHdr(_) => HeaderStepSound(p, v);
      case CombCrc(_, _) => HeaderStepSound(p, v);
      case Mapping1(_, _) => TableStepSound(p, v);
      case Mapping2(_, _, _) => TableStepSound(p, v);
      case Selector1(_, _) => TableStepSound(p, v);
      case Selector2(_, _, _) => TableStepSound(p, v);
      case Selector3(_, _, _, _, _, _) => TableStepSound(p, v);
      case Coding1(_, _) => LengthStepSound(p, v);
      case Coding2(_, _, _, _) => LengthStepSound(p, v);
      case Coding3(_, _, _, _) => LengthStepSound(p, v);
      case Mtf1(_, _, _, _) => SymbolStepSound(p, v);
      case Mtf2(_, _, _, _, _, _) => SymbolStepSound(p, v);
      case _ => FinalStep(p, v);
    }
  }

  lemma FinalStep(p: Phase, v: nat)
    requires p.Output? || p.End? || p.DataError? || p.MagicError?
    ensures Step(p, v) == p
  {
  }

  /** No request exceeds what GET_BITS can serve from its register, and none is empty before the end. */
  lemma NeedBounded(p: Phase)
    requires Sound(p)
    ensures Need(p) <= 20 && (Need(p) == 0 <==> p.Output? || p.End? || p.DataError? || p.MagicError?)
  {
    hide MinLen, LimitAt, InRange, MtfOk;
    if p.Mtf1? {
      RowNeed(p.body, p.row, p.mtfs);
    }
  }

  /** On every input, good or corrupt, the decoder stays sound. */
  lemma {:induction false} RunKeepsSound(p: Phase, b: Bits)
    requires Sound(p)
    ensures Sound(Run(p, b).0)
    decreases |b|
  {
    hide Sound, Step, Need;
    var n := Need(p);
    if n != 0 && |b| >= n {
      StepKeepsSound(p, ToNat(b[..n]));
      RunKeepsSound(Step(p, ToNat(b[..n])), b[n..]);
    }
  }
}
