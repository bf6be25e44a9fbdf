/** Move-to-front with bijective base-2 zero runs: the symbol layer between the last column and the Huffman codes. */
module MoveToFront {
  import opened Base

  const RUNA := 0
  const RUNB := 1

  function IndexOf(list: seq<int>, c: int): (k: nat)
    requires c in list
    ensures k < |list| && list[k] == c && forall j :: 0 <= j < k ==> list[j] != c
  {
    if list[0] == c then 0 else 1 + IndexOf(list[1..], c)
  }

  function Move(list: seq<int>, k: nat): (r: seq<int>)
    requires k < |list|
    ensures |r| == |list|
  {
    [list[k]] + list[..k] + list[k + 1..]
  }

  lemma MoveKeepsElements(list: seq<int>, k: nat)
    requires k < |list|
    ensures multiset(Move(list, k)) == multiset(list)
    ensures forall c :: c in Move(list, k) <==> c in list
  {
    assert list == list[..k] + [list[k]] + list[k + 1..];
    assert forall c :: c in multiset(list) <==> c in multiset(Move(list, k));
  }

  // ---- zero runs: the bijective base-2 numeral, least significant digit first ----

  function Digits(n: nat): (d: seq<nat>)
    ensures |d| <= n && forall i :: 0 <= i < |d| ==> d[i] == RUNA || d[i] == RUNB
  {
    if n == 0 then [] else [if n % 2 == 1 then RUNA else RUNB] + Digits((n - 1) / 2)
  }

  function DigitValue(d: nat): nat {
    if d == RUNA then 1 else 2
  }

  function Value(d: seq<nat>): nat {
    if d == [] then 0 else DigitValue(d[0]) + 2 * Value(d[1..])
  }

  lemma {:induction false} ValueOfDigits(n: nat)
    ensures Value(Digits(n)) == n
  {
    hide Value;
    if n == 0 {
      NoValue();
    } else {
      var rest := (n - 1) / 2;
      ValueOfDigits(rest);
      ValueCons(if n % 2 == 1 then RUNA else RUNB, Digits(rest));
      Odd(n);
    }
  }

  lemma NoValue()
    ensures Value([]) == 0
  {
  }

  lemma ValueCons(x: nat, d: seq<nat>)
    ensures Value([x] + d) == DigitValue(x) + 2 * Value(d)
  {
    assert ([x] + d)[1..] == d;
  }

  lemma Odd(n: nat)
    requires n > 0
    ensures n == (if n % 2 == 1 then 1 else 2) + 2 * ((n - 1) / 2)
  {
  }

  lemma DigitsStep(d: nat, v: nat)
    requires d == RUNA || d == RUNB
    ensures Digits(DigitValue(d) + 2 * v) == [d] + Digits(v)
  {
    var n := DigitValue(d) + 2 * v;
    assert (n - 1) / 2 == v && (n % 2 == 1 <==> d == RUNA);
  }

  /** The numeral is the only one: every digit string is the numeral of its value. */
  lemma {:induction false} DigitsOfValue(d: seq<nat>)
    requires forall i :: 0 <= i < |d| ==> d[i] == RUNA || d[i] == RUNB
    ensures Digits(Value(d)) == d
  {
    if d != [] {
      DigitsOfValue(d[1..]);
      DigitsStep(d[0], Value(d[1..]));
    }
  }

  lemma {:induction false} DigitsShort(n: nat, k: nat)
    requires n < Pow2(k) - 1 + Pow2(k)
    ensures |Digits(n)| <= k
  {
    if n > 0 && k > 0 {
      DigitsShort((n - 1) / 2, k - 1);
    }
  }

  // ---- the numeral in numbers ----

  /** Digit 0 counts 1 and digit 1 counts 2, in units that double from digit to digit. */
  function RunSum(d: seq<nat>): nat {
    if d == [] then 0 else RunSum(d[..|d| - 1]) + (d[|d| - 1] + 1) * Pow2(|d| - 1)
  }

  predicate ZerosAndOnes(d: seq<nat>) {
    forall i :: 0 <= i < |d| ==> d[i] == 0 || d[i] == 1
  }

  lemma {:induction false} ValueLast(d: seq<nat>, x: nat)
    ensures Value(d + [x]) == Value(d) + DigitValue(x) * Pow2(|d|)
  {
    hide DigitValue;
    if d == [] {
      assert [] + [x] == [x] && [x][1..] == [];
      NoValue();
    } else {
      assert (d + [x])[1..] == d[1..] + [x];
      ValueLast(d[1..], x);
      DoubledTerm(DigitValue(x), Pow2(|d| - 1));
    }
  }

  lemma DoubledTerm(x: nat, p: nat)
    ensures x * (2 * p) == 2 * (x * p)
  {
  }

  lemma {:induction false} ValueIsSum(d: seq<nat>)
    requires ZerosAndOnes(d)
    ensures Value(d) == RunSum(d)
  {
    hide Value;
    if d == [] {
      NoValue();
    } else {
      var k := |d| - 1;
      ValueIsSum(d[..k]);
      ValueLast(d[..k], d[k]);
      assert d[..k] + [d[k]] == d;
    }
  }

  /** A run is written in zeros and ones that add up to it. */
  lemma RunWritten(n: nat)
    ensures ZerosAndOnes(Digits(n)) && RunSum(Digits(n)) == n
  {
    ValueOfDigits(n);
    ValueIsSum(Digits(n));
  }

  // ---- the encoder ----

  /** The symbols for `col`, with `zeros` front-of-list hits still pending. */
  function Symbols(list: seq<int>, zeros: nat, col: seq<int>): (s: seq<nat>)
    requires forall i :: 0 <= i < |col| ==> col[i] in list
    decreases |col|
  {
    if col == [] then Digits(zeros)
    else
      var k := IndexOf(list, col[0]);
      if k == 0 then Symbols(list, zeros + 1, col[1..])
      else
        MoveKeepsElements(list, k);
        Digits(zeros) + [k + 1] + Symbols(Move(list, k), 0, col[1..])
  }

  /** Emitted symbols never outnumber consumed characters. */
  lemma {:induction false} SymbolsBounded(list: seq<int>, zeros: nat, col: seq<int>)
    requires list != [] && forall i :: 0 <= i < |col| ==> col[i] in list
    ensures |Symbols(list, zeros, col)| <= zeros + |col|
    ensures forall i :: 0 <= i < |Symbols(list, zeros, col)| ==> Symbols(list, zeros, col)[i] <= |list|
    decreases |col|
  {
    hide IndexOf, Move;
    if col != [] {
      var k := IndexOf(list, col[0]);
      if k == 0 {
        SymbolsBounded(list, zeros + 1, col[1..]);
      } else {
        MoveKeepsElements(list, k);
        SymbolsBounded(Move(list, k), 0, col[1..]);
      }
    }
  }

  // ---- the decoder ----

  /** BZ2_decompress between two symbols: the list, the column so far, and the zero run being read (es, N). */
  datatype MtfState = MtfState(list: seq<int>, column: seq<int>, es: int, weight: nat)

  datatype MtfResult = More(state: MtfState) | Finished(column: seq<int>) | Bad

  const WEIGHT_LIMIT := 2 * 1024 * 1024

  function Idle(list: seq<int>, column: seq<int>): MtfState {
    MtfState(list, column, -1, 1)
  }

  /** A non-run symbol first completes the zero run, if one is being read. */
  function EndRun(s: MtfState, limit: nat): (r: MtfResult)
    requires s.list != []
    ensures !r.Finished?
  {
    if s.weight == 1 then More(s)
    else if s.es + 1 > 0 && |s.column| + s.es + 1 > limit then Bad
    else More(Idle(s.list, s.column + Repeat<int>(s.list[0], if s.es + 1 > 0 then s.es + 1 else 0)))
  }

  /** One decoded symbol; `eob` ends the block, `limit` is nblockMAX. */
  function Accept(s: MtfState, sym: nat, eob: nat, limit: nat): (r: MtfResult)
    requires |s.list| == 256 && eob <= 257
    ensures r.More? ==> |r.state.list| == 256
  {
    if sym == RUNA || sym == RUNB then
      if s.weight >= WEIGHT_LIMIT then Bad
      else More(s.(es := s.es + DigitValue(sym) * s.weight, weight := 2 * s.weight))
    else
      match EndRun(s, limit)
      case Bad => Bad
      case Finished(_) => Bad
      case More(t) =>
        if sym == eob then Finished(t.column)
        else if |t.column| >= limit || sym > 256 then Bad
        else More(t.(list := Move(t.list, sym - 1), column := t.column + [t.list[sym - 1]]))
  }

  function AcceptAll(s: MtfState, syms: seq<nat>, eob: nat, limit: nat): (r: MtfResult)
    requires |s.list| == 256 && eob <= 257
    ensures r.More? ==> |r.state.list| == 256
    decreases |syms|
  {
    if syms == [] then More(s)
    else
      var r := Accept(s, syms[0], eob, limit);
      if r.More? then AcceptAll(r.state, syms[1..], eob, limit) else r
  }

  lemma {:induction false} AcceptConcat(s: MtfState, a: seq<nat>, b: seq<nat>, eob: nat, limit: nat)
    requires |s.list| == 256 && eob <= 257
    ensures AcceptAll(s, a + b, eob, limit)
            == var r := AcceptAll(s, a, eob, limit); if r.More? then AcceptAll(r.state, b, eob, limit) else r
    decreases |a|
  {
    if a == [] {
      assert a + b == b;
    } else {
      assert (a + b)[0] == a[0] && (a + b)[1..] == a[1..] + b;
      var r := Accept(s, a[0], eob, limit);
      if r.More? {
        AcceptConcat(r.state, a[1..], b, eob, limit);
      }
    }
  }

  lemma WeightStep(w: nat, p: nat, d: nat, v: nat)
    requires w >= 1 && p >= 1 && w * (2 * p) <= WEIGHT_LIMIT
    ensures w < WEIGHT_LIMIT && (2 * w) * p == w * (2 * p) && w * (d + 2 * v) == d * w + (2 * w) * v
  {
    assert (2 * w) * p == w * (2 * p);
    assert w * (2 * p) >= 2 * w;
  }

  /** Reading a numeral accumulates its value, scaled by the weight already reached. */
  lemma {:induction false} AcceptDigits(s: MtfState, d: seq<nat>, eob: nat, limit: nat)
    requires |s.list| == 256 && eob <= 257 && s.weight >= 1
    requires forall i :: 0 <= i < |d| ==> d[i] == RUNA || d[i] == RUNB
    requires s.weight * Pow2(|d|) <= WEIGHT_LIMIT
    ensures AcceptAll(s, d, eob, limit) == More(s.(es := s.es + s.weight * Value(d), weight := s.weight * Pow2(|d|)))
    decreases |d|
  {
    if d != [] {
      var t := s.(es := s.es + DigitValue(d[0]) * s.weight, weight := 2 * s.weight);
      WeightStep(s.weight, Pow2(|d| - 1), DigitValue(d[0]), Value(d[1..]));
      AcceptDigits(t, d[1..], eob, limit);
    }
  }

  lemma LimitValue()
    ensures WEIGHT_LIMIT == Pow2(21)
  {
    Pow2Values();
  }

  /** Zeros and ones are read as the run they add up to, at most 21 of them in a row. */
  lemma RunRead(list: seq<int>, done: seq<int>, d: seq<nat>, eob: nat, limit: nat)
    requires |list| == 256 && eob <= 257 && ZerosAndOnes(d)
    ensures AcceptAll(Idle(list, done), d, eob, limit)
         == if |d| <= 21 then More(MtfState(list, done, RunSum(d) - 1, Pow2(|d|))) else Bad
  {
    hide AcceptAll, Pow2;
    LimitValue();
    ValueIsSum(d);
    if |d| <= 21 {
      Pow2Monotone(|d|, 21);
      AcceptDigits(Idle(list, done), d, eob, limit);
    } else {
      var a, b := d[..21], d[21..];
      assert a + b == d;
      AcceptDigits(Idle(list, done), a, eob, limit);
      AcceptConcat(Idle(list, done), a, b, eob, limit);
      TooHeavy(Idle(list, done).(es := Value(a) - 1, weight := Pow2(21)), b, eob, limit);
    }
  }

  lemma TooHeavy(s: MtfState, d: seq<nat>, eob: nat, limit: nat)
    requires |s.list| == 256 && eob <= 257 && s.weight == WEIGHT_LIMIT && d != [] && (d[0] == 0 || d[0] == 1)
    ensures AcceptAll(s, d, eob, limit) == Bad
  {
  }

  // ---- the round trip ----

  lemma FillAdd(x: seq<int>, c: int, n: nat, col: seq<int>)
    requires col != [] && col[0] == c
    ensures x + Repeat<int>(c, n + 1) + col[1..] == x + Repeat<int>(c, n) + col
  {
  }

  lemma HitColumn(x: seq<int>, c: int, col: seq<int>)
    requires col != [] && col[0] == c
    ensures x + [c] + Repeat<int>(c, 0) + col[1..] == x + col
  {
  }

  /** Digits of a run of at most 900000 never trip the weight guard. */
  lemma AcceptRun(list: seq<int>, done: seq<int>, zeros: nat, eob: nat, limit: nat)
    requires |list| == 256 && eob <= 257 && zeros <= 900000
    ensures AcceptAll(Idle(list, done), Digits(zeros), eob, limit)
            == More(MtfState(list, done, zeros - 1, Pow2(|Digits(zeros)|)))
  {
    Pow2Values();
    DigitsShort(zeros, 20);
    Pow2Monotone(|Digits(zeros)|, 20);
    ValueOfDigits(zeros);
    AcceptDigits(Idle(list, done), Digits(zeros), eob, limit);
  }

  /** After a run, a symbol other than RUNA and RUNB sees the run written out. */
  lemma AfterRun(list: seq<int>, done: seq<int>, zeros: nat, limit: nat)
    requires |list| == 256 && |done| + zeros <= limit
    ensures EndRun(MtfState(list, done, zeros - 1, Pow2(|Digits(zeros)|)), limit)
        == More(Idle(list, done + Repeat<int>(list[0], zeros)))
  {
    if zeros == 0 {
      assert done + Repeat<int>(list[0], 0) == done;
    } else {
      assert |Digits(zeros)| > 0;
    }
  }

  lemma MoveInFront(list: seq<int>, rest: seq<int>, k: nat)
    requires k < |list|
    ensures Move(list + rest, k) == Move(list, k) + rest
  {
  }

  /** A pending run followed by list position k > 0. */
  lemma AcceptHit(list: seq<int>, rest: seq<int>, done: seq<int>, zeros: nat, k: nat, eob: nat, limit: nat)
    requires |list| + |rest| == 256 && 0 < k < |list| && eob == |list| + 1 && |done| + zeros + 1 <= limit <= 900000
    ensures AcceptAll(Idle(list + rest, done), Digits(zeros) + [k + 1], eob, limit)
            == More(Idle(Move(list, k) + rest, done + Repeat<int>(list[0], zeros) + [list[k]]))
  {
    var full := list + rest;
    AcceptConcat(Idle(full, done), Digits(zeros), [k + 1], eob, limit);
    AcceptRun(full, done, zeros, eob, limit);
    AfterRun(full, done, zeros, limit);
    MoveInFront(list, rest, k);
    var s := MtfState(full, done, zeros - 1, Pow2(|Digits(zeros)|));
    assert Accept(s, k + 1, eob, limit) == More(Idle(Move(full, k), done + Repeat<int>(list[0], zeros) + [full[k]]));
    assert [k + 1][1..] == [];
  }

  lemma AcceptEnd(list: seq<int>, rest: seq<int>, done: seq<int>, zeros: nat, eob: nat, limit: nat)
    requires |list| + |rest| == 256 && list != [] && eob == |list| + 1 && |done| + zeros <= limit <= 900000
    ensures AcceptAll(Idle(list + rest, done), Digits(zeros) + [eob], eob, limit)
        == Finished(done + Repeat<int>(list[0], zeros))
  {
    var full := list + rest;
    AcceptConcat(Idle(full, done), Digits(zeros), [eob], eob, limit);
    AcceptRun(full, done, zeros, eob, limit);
    AfterRun(full, done, zeros, limit);
  }

  /**
   * Decoding the emitted symbols gives back the column, for every column over the
   * list, whatever run is pending and whatever unused positions follow the list.
   */
  lemma {:induction false} MtfRoundTrip(list: seq<int>, rest: seq<int>, done: seq<int>, zeros: nat, col: seq<int>,
          eob: nat, limit: nat)
    requires |list| + |rest| == 256 && list != [] && eob == |list| + 1
    requires forall i :: 0 <= i < |col| ==> col[i] in list
    requires |done| + zeros + |col| <= limit <= 900000
    ensures AcceptAll(Idle(list + rest, done), Symbols(list, zeros, col) + [eob], eob, limit)
            == Finished(done + Repeat<int>(list[0], zeros) + col)
    decreases |col|
  {
    hide AcceptAll, Digits;
    if col == [] {
      AcceptEnd(list, rest, done, zeros, eob, limit);
      assert done + Repeat<int>(list[0], zeros) + col == done + Repeat<int>(list[0], zeros);
    } else {
      var k := IndexOf(list, col[0]);
      if k == 0 {
        MtfRoundTrip(list, rest, done, zeros + 1, col[1..], eob, limit);
        FillAdd(done, list[0], zeros, col);
      } else {
        MoveKeepsElements(list, k);
        var done' := done + Repeat<int>(list[0], zeros) + [list[k]];
        var tail := Symbols(Move(list, k), 0, col[1..]) + [eob];
        AcceptHit(list, rest, done, zeros, k, eob, limit);
        AcceptConcat(Idle(list + rest, done), Digits(zeros) + [k + 1], tail, eob, limit);
        Associate(Digits(zeros) + [k + 1], Symbols(Move(list, k), 0, col[1..]), [eob]);
        MtfRoundTrip(Move(list, k), rest, done', 0, col[1..], eob, limit);
        HitColumn(done + Repeat<int>(list[0], zeros), list[k], col);
      }
    }
  }
}
