/** The choosing half of sendMTFValues: initial tables, four passes of selection and re-measuring. */
module TableChoice {
  import opened Base
  import opened CanonicalCode
  import opened CodeLengths
  import HuffmanTree
  import opened BlockFormat

  const N_ITERS := 4
  const CODE_LIMIT := 17
  const LESSER_ICOST: byte := 0
  const GREATER_ICOST: byte := 15

  type Lens = seq<seq<byte>>

  ghost predicate Shape(lens: Lens, nGroups: nat, alphaSize: nat) {
    |lens| == nGroups && forall t :: 0 <= t < nGroups ==> |lens[t]| == alphaSize
  }

  ghost predicate InAlphabet(syms: seq<nat>, alphaSize: nat) {
    forall i :: 0 <= i < |syms| ==> syms[i] < alphaSize
  }

  function GroupCount(nMTF: nat): (n: nat)
    ensures 2 <= n <= MAX_GROUPS && (n > 2 <==> nMTF >= 200) && (n > 3 <==> nMTF >= 600)
    ensures (n > 4 <==> nMTF >= 1200) && (n > 5 <==> nMTF >= 2400)
  {
    if nMTF < 200 then 2 else if nMTF < 600 then 3 else if nMTF < 1200 then 4 else if nMTF < 2400 then 5 else 6
  }

  /** mtfFreq, as generateMTFValues counts it. */
  method CountSymbols(mtfv: seq<nat>, alphaSize: nat) returns (mtfFreq: seq<int>)
    requires InAlphabet(mtfv, alphaSize)
    ensures |mtfFreq| == alphaSize && forall v :: 0 <= v < alphaSize ==> mtfFreq[v] == multiset(mtfv)[v]
  {
    mtfFreq := seq(alphaSize, _ => 0);
    var i := 0;
    while i < |mtfv|
      invariant 0 <= i <= |mtfv| && |mtfFreq| == alphaSize
      invariant forall v :: 0 <= v < alphaSize ==> mtfFreq[v] == multiset(mtfv[..i])[v]
    {
      assert mtfv[..i + 1] == mtfv[..i] + [mtfv[i]];
      mtfFreq := mtfFreq[mtfv[i] := mtfFreq[mtfv[i]] + 1];
      i := i + 1;
    }
    assert mtfv[..i] == mtfv;
  }

  function Total(row: seq<int>): int {
    if row == [] then 0 else Total(row[..|row| - 1]) + row[|row| - 1]
  }

  lemma TotalMore(freq: seq<int>, gs: nat, k: nat)
    requires gs <= k < |freq|
    ensures Total(freq[gs..k + 1]) == Total(freq[gs..k]) + freq[k]
  {
    assert freq[gs..k + 1][..k - gs] == freq[gs..k];
  }

  lemma {:induction false} TotalSplit(freq: seq<int>, gs: nat, k: nat)
    requires gs <= k <= |freq|
    ensures Total(freq[..k]) == Total(freq[..gs]) + Total(freq[gs..k])
  {
    hide Total;
    if k > gs {
      TotalSplit(freq, gs, k - 1);
      TotalMore(freq, gs, k - 1);
      TotalMore(freq, 0, k - 1);
      assert freq[0..k] == freq[..k] && freq[0..k - 1] == freq[..k - 1];
    } else {
      assert freq[gs..k] == [];
      assert Total([]) == 0 by {
        TotalZero(0);
        assert seq(0, _ => 0) == [];
      }
    }
  }

  /** The shortest share from `gs` on whose frequencies reach `tFreq` ends before `e`. */
  ghost predicate Reaches(freq: seq<int>, gs: nat, e: nat, tFreq: int) {
    && gs <= e <= |freq| && (e == |freq| || Total(freq[gs..e]) >= tFreq)
    && forall k :: gs <= k < e ==> Total(freq[gs..k]) < tFreq
  }

  /** ... and a share that is trimmed goes without its last symbol, unless that is its only one. */
  ghost predicate ShareEnds(freq: seq<int>, gs: nat, stop: nat, tFreq: int, trim: bool) {
    if trim && stop > gs && Reaches(freq, gs, stop + 1, tFreq) then true
    else Reaches(freq, gs, stop, tFreq) && (trim ==> stop <= gs + 1)
  }

  /** Where one initial share of the alphabet ends, and its frequency. */
  method ShareEnd(mtfFreq: seq<int>, gs: nat, tFreq: int, trim: bool) returns (ge: int, aFreq: int)
    requires gs <= |mtfFreq|
    ensures gs - 1 <= ge < |mtfFreq| && ShareEnds(mtfFreq, gs, ge + 1, tFreq, trim)
    ensures aFreq == Total(mtfFreq[gs..ge + 1])
  {
    hide Total;
    ge, aFreq := gs - 1, 0;
    assert Total(mtfFreq[gs..gs]) == 0 by {
      TotalSplit(mtfFreq, gs, gs);
    }
    while aFreq < tFreq && ge < |mtfFreq| - 1
      invariant gs - 1 <= ge < |mtfFreq| && aFreq == Total(mtfFreq[gs..ge + 1])
      invariant forall k :: gs <= k <= ge ==> Total(mtfFreq[gs..k]) < tFreq
      decreases |mtfFreq| - ge
    {
      ge := ge + 1;
      TotalMore(mtfFreq, gs, ge);
      aFreq := aFreq + mtfFreq[ge];
    }
    if ge > gs && trim {
      TotalMore(mtfFreq, gs, ge);
      aFreq := aFreq - mtfFreq[ge];
      ge := ge - 1;
    }
  }

  /** Share `i` takes its part of what the earlier ones left; every second one but the last is trimmed. */
  ghost predicate ShareIs(freq: seq<int>, nMTF: nat, nGroups: nat, i: nat, gs: nat, stop: nat) {
    && i < nGroups && gs <= |freq|
    && ShareEnds(freq, gs, stop, TruncDiv(nMTF - Total(freq[..gs]), nGroups - i), i % 2 == 1 && i != nGroups - 1)
  }

  /** A table that costs 0 inside the share and 15 outside. */
  ghost predicate FavoursShare(row: seq<byte>, gs: nat, stop: nat) {
    forall v :: 0 <= v < |row| ==> row[v] == if gs <= v < stop then 0 else 15
  }

  /** The alphabet cut into consecutive shares, one for each table from the top one down to `nPart`. */
  ghost predicate SharesTo(bounds: seq<nat>, len: Lens, freq: seq<int>, nMTF: nat, nGroups: nat, nPart: nat) {
    && nPart <= nGroups && |bounds| == nGroups - nPart + 1 && bounds[0] == 0 && Shape(len, nGroups, |freq|)
    && (forall i :: 0 <= i < |bounds| ==> bounds[i] <= |freq|)
    && (forall i {:trigger bounds[i]} :: 0 <= i < |bounds| - 1 ==>
        ShareIs(freq, nMTF, nGroups, i, bounds[i], bounds[i + 1]))
    && (forall t :: nPart <= t < nGroups ==> FavoursShare(len[t], bounds[nGroups - 1 - t], bounds[nGroups - t]))
  }

  ghost predicate InitialChoice(len: Lens, freq: seq<int>, nMTF: nat, nGroups: nat) {
    exists bounds :: SharesTo(bounds, len, freq, nMTF, nGroups, 0)
  }

  lemma NextShare(bounds: seq<nat>, len: Lens, freq: seq<int>, nMTF: nat, nGroups: nat, nPart: nat, stop: nat,
          row: seq<byte>)
    requires nPart > 0 && SharesTo(bounds, len, freq, nMTF, nGroups, nPart) && stop <= |freq| && |row| == |freq|
    requires ShareIs(freq, nMTF, nGroups, nGroups - nPart, bounds[|bounds| - 1], stop)
    requires FavoursShare(row, bounds[|bounds| - 1], stop)
    ensures SharesTo(bounds + [stop], len[nPart - 1 := row], freq, nMTF, nGroups, nPart - 1)
  {
    hide ShareIs, FavoursShare;
    var more, k, rows := bounds + [stop], |bounds| - 1, len[nPart - 1 := row];
    forall i | 0 <= i < |more| - 1
      ensures ShareIs(freq, nMTF, nGroups, i, more[i], more[i + 1])
    {
      assert more[i] == bounds[i];
      assert i < k ==> more[i + 1] == bounds[i + 1];
    }
    forall t | nPart - 1 <= t < nGroups
      ensures FavoursShare(rows[t], more[nGroups - 1 - t], more[nGroups - t])
    {
      assert t >= nPart ==> rows[t] == len[t] && more[nGroups - t] == bounds[nGroups - t];
    }
  }

  /** Initial tables: each favours its share of the alphabet. */
  method InitialTables(mtfFreq: seq<int>, nMTF: nat, nGroups: nat) returns (len: Lens)
    ensures Shape(len, nGroups, |mtfFreq|) && InitialChoice(len, mtfFreq, nMTF, nGroups)
  {
    hide ShareEnds, Total;
    var alphaSize := |mtfFreq|;
    len := seq(nGroups, _ => seq(alphaSize, _ => GREATER_ICOST));
    var nPart, remF: int, gs := nGroups, nMTF, 0;
    ghost var bounds: seq<nat> := [0];
    assert Total(mtfFreq[..0]) == 0 by {
      TotalSplit(mtfFreq, 0, 0);
      assert mtfFreq[0..0] == mtfFreq[..0];
    }
    while nPart > 0
      invariant 0 <= nPart <= nGroups && gs <= alphaSize && remF == nMTF - Total(mtfFreq[..gs])
      invariant SharesTo(bounds, len, mtfFreq, nMTF, nGroups, nPart) && gs == bounds[|bounds| - 1]
    {
      var tFreq := TruncDiv(remF, nPart);
      var ge, aFreq := ShareEnd(mtfFreq, gs, tFreq, nPart != nGroups && nPart != 1 && (nGroups - nPart) % 2 == 1);
      var row := seq(alphaSize, v => if gs <= v <= ge then LESSER_ICOST else GREATER_ICOST);
      NextShare(bounds, len, mtfFreq, nMTF, nGroups, nPart, ge + 1, row);
      TotalSplit(mtfFreq, gs, ge + 1);
      len := len[nPart - 1 := row];
      bounds := bounds + [ge + 1];
      nPart := nPart - 1;
      gs := ge + 1;
      remF := remF - aFreq;
    }
  }

  /** C division, truncating toward zero. */
  function TruncDiv(a: int, b: nat): int
    requires b > 0
  {
    if a >= 0 then a / b else -(-a / b)
  }

  /** Total code length of syms[gs..ge] under one table. */
  function Cost(row: seq<byte>, syms: seq<nat>, gs: nat, ge: nat): nat
    requires InAlphabet(syms, |row|) && gs <= ge <= |syms|
    decreases ge - gs
  {
    if gs == ge then 0 else Cost(row, syms, gs, ge - 1) + row[syms[ge - 1]]
  }

  method GroupCosts(lens: Lens, syms: seq<nat>, gs: nat, ge: nat, alphaSize: nat) returns (cost: seq<nat>)
    requires Shape(lens, |lens|, alphaSize) && InAlphabet(syms, alphaSize) && gs <= ge < |syms|
    ensures |cost| == |lens| && forall t :: 0 <= t < |lens| ==> cost[t] == Cost(lens[t], syms, gs, ge + 1)
  {
    cost := seq(|lens|, _ => 0);
    var i := gs;
    while i <= ge
      invariant gs <= i <= ge + 1 && |cost| == |lens|
      invariant forall t :: 0 <= t < |lens| ==> cost[t] == Cost(lens[t], syms, gs, i)
    {
      cost := seq(|lens|, t requires 0 <= t < |lens| => cost[t] + lens[t][syms[i]]);
      i := i + 1;
    }
  }

  /** A cheapest table, the first on a tie. */
  method BestTable(cost: seq<nat>) returns (bt: nat)
    requires cost != [] && forall t :: 0 <= t < |cost| ==> cost[t] < 999999999
    ensures bt < |cost| && forall t :: 0 <= t < |cost| ==> cost[bt] <= cost[t] && (t < bt ==> cost[bt] < cost[t])
  {
    var bc, best, t := 999999999, -1, 0;
    while t < |cost|
      invariant 0 <= t <= |cost| && -1 <= best < t && (best == -1 ==> t == 0 && bc == 999999999)
      invariant best >= 0 ==> bc == cost[best]
      invariant forall u :: 0 <= u < t ==> best >= 0 && cost[best] <= cost[u] && (u < best ==> cost[best] < cost[u])
    {
      if cost[t] < bc {
        bc, best := cost[t], t;
      }
      t := t + 1;
    }
    bt := best;
  }

  lemma {:induction false} CostBound(row: seq<byte>, syms: seq<nat>, gs: nat, ge: nat)
    requires InAlphabet(syms, |row|) && gs <= ge <= |syms|
    ensures Cost(row, syms, gs, ge) <= 255 * (ge - gs)
    decreases ge - gs
  {
    if gs < ge {
      CostBound(row, syms, gs, ge - 1);
    }
  }

  // ---- frequencies of the symbols given to each table ----

  lemma {:induction false} TotalBump(row: seq<int>, v: nat)
    requires v < |row|
    ensures Total(row[v := row[v] + 1]) == Total(row) + 1
  {
    var r, k := row[v := row[v] + 1], |row| - 1;
    if v < k {
      TotalBump(row[..k], v);
      assert r[..k] == row[..k][v := row[v] + 1];
    } else {
      assert r[..k] == row[..k];
    }
  }

  lemma {:induction false} TotalZero(n: nat)
    ensures Total(seq(n, _ => 0)) == 0
  {
    if n > 0 {
      TotalZero(n - 1);
      assert seq(n, _ => 0)[..n - 1] == seq(n - 1, _ => 0);
    }
  }

  ghost predicate Frequencies(rfreq: seq<seq<int>>, nGroups: nat, alphaSize: nat, bound: nat) {
    && |rfreq| == nGroups
    && forall t :: 0 <= t < nGroups ==> |rfreq[t]| == alphaSize && NonNegative(rfreq[t]) && Total(rfreq[t]) <= bound
  }

  ghost predicate NonNegative(row: seq<int>) {
    forall v :: 0 <= v < |row| ==> 0 <= row[v]
  }

  lemma {:induction false} TotalToSum(row: seq<int>)
    requires NonNegative(row)
    ensures Sum(Positives(row)) <= Total(row) + |row|
  {
    if row != [] {
      TotalToSum(row[..|row| - 1]);
      assert Positives(row)[..|row| - 1] == Positives(row[..|row| - 1]);
    }
  }

  /** How often `v` occurs among syms[gs..ge). */
  function Occurs(syms: seq<nat>, gs: nat, ge: nat, v: nat): nat
    requires gs <= ge <= |syms|
    decreases ge - gs
  {
    if gs == ge then 0 else Occurs(syms, gs, ge - 1, v) + if syms[ge - 1] == v then 1 else 0
  }

  /** Count syms[gs..ge] for the selected table. */
  method CountGroup(rfreq: seq<seq<int>>, bt: nat, syms: seq<nat>, gs: nat, ge: nat, ghost alphaSize: nat)
    returns (r: seq<seq<int>>)
    requires Frequencies(rfreq, |rfreq|, alphaSize, gs) && bt < |rfreq| && InAlphabet(syms, alphaSize)
    requires gs <= ge < |syms|
    ensures Frequencies(r, |rfreq|, alphaSize, ge + 1) && (forall t :: 0 <= t < |rfreq| && t != bt ==> r[t] == rfreq[t])
    ensures forall v :: 0 <= v < alphaSize ==> r[bt][v] == rfreq[bt][v] + Occurs(syms, gs, ge + 1, v)
  {
    hide Total;
    r := rfreq;
    var i := gs;
    while i <= ge
      invariant gs <= i <= ge + 1 && Frequencies(r, |rfreq|, alphaSize, i)
      invariant forall t :: 0 <= t < |rfreq| && t != bt ==> r[t] == rfreq[t]
      invariant forall v :: 0 <= v < alphaSize ==> r[bt][v] == rfreq[bt][v] + Occurs(syms, gs, i, v)
    {
      TotalBump(r[bt], syms[i]);
      r := r[bt := r[bt][syms[i] := r[bt][syms[i]] + 1]];
      i := i + 1;
    }
  }

  ghost predicate ValidSelectors(sel: seq<nat>, nGroups: nat) {
    forall i :: 0 <= i < |sel| ==> sel[i] < nGroups
  }

  /** Where the group after group `g` begins. */
  function GroupEnd(g: nat, n: nat): nat {
    if GROUP_SIZE * (g + 1) <= n then GROUP_SIZE * (g + 1) else n
  }

  /** No table codes group `g` in fewer bits than its own, and none before its own in as few. */
  ghost predicate Cheapest(lens: Lens, syms: seq<nat>, g: nat, bt: nat)
    requires GROUP_SIZE * g <= |syms| && forall t :: 0 <= t < |lens| ==> InAlphabet(syms, |lens[t]|)
  {
    bt < |lens| && forall t :: 0 <= t < |lens| ==>
      var best, other := Cost(lens[bt], syms, GROUP_SIZE * g, GroupEnd(g, |syms|)),
          Cost(lens[t], syms, GROUP_SIZE * g, GroupEnd(g, |syms|));
      best <= other && (t < bt ==> best < other)
  }

  /** How often `v` occurs in the groups given to table `t`. */
  function Given(sel: seq<nat>, syms: seq<nat>, t: nat, v: nat): nat
    requires GROUP_SIZE * |sel| - GROUP_SIZE <= |syms|
  {
    if sel == [] then 0
    else
      var g := |sel| - 1;
      Given(sel[..g], syms, t, v) + if sel[g] == t then Occurs(syms, GROUP_SIZE * g, GroupEnd(g, |syms|), v) else 0
  }

  lemma GivenMore(sel: seq<nat>, bt: nat, syms: seq<nat>, t: nat, v: nat)
    requires GROUP_SIZE * |sel| <= |syms|
    ensures Given(sel + [bt], syms, t, v) == Given(sel, syms, t, v)
      + if t == bt then Occurs(syms, GROUP_SIZE * |sel|, GroupEnd(|sel|, |syms|), v) else 0
  {
    assert (sel + [bt])[..|sel|] == sel;
  }

  /** Every symbol is counted for the table its group was given to. */
  ghost predicate Tallies(rfreq: seq<seq<int>>, sel: seq<nat>, syms: seq<nat>, alphaSize: nat)
    requires GROUP_SIZE * |sel| - GROUP_SIZE <= |syms|
  {
    forall t, v :: 0 <= t < |rfreq| && |rfreq[t]| == alphaSize && 0 <= v < alphaSize ==>
      rfreq[t][v] == Given(sel, syms, t, v)
  }

  /** One turn of the loop over the groups. */
  method SelectOne(lens: Lens, syms: seq<nat>, alphaSize: nat, ghost sel: seq<nat>, rfreq: seq<seq<int>>, gs: nat)
    returns (bt: nat, r: seq<seq<int>>, ge: nat)
    requires lens != [] && Shape(lens, |lens|, alphaSize) && InAlphabet(syms, alphaSize)
    requires gs == GROUP_SIZE * |sel| < |syms|
    requires Frequencies(rfreq, |lens|, alphaSize, gs) && Tallies(rfreq, sel, syms, alphaSize)
    ensures ge + 1 == GroupEnd(|sel|, |syms|) && Cheapest(lens, syms, |sel|, bt)
    ensures Frequencies(r, |lens|, alphaSize, ge + 1) && Tallies(r, sel + [bt], syms, alphaSize)
  {
    hide Total, Cost, Occurs, Given;
    ge := gs + GROUP_SIZE - 1;
    if ge >= |syms| {
      ge := |syms| - 1;
    }
    var cost := GroupCosts(lens, syms, gs, ge, alphaSize);
    forall t | 0 <= t < |lens|
      ensures cost[t] < 999999999
    {
      CostBound(lens[t], syms, gs, ge + 1);
    }
    bt := BestTable(cost);
    r := CountGroup(rfreq, bt, syms, gs, ge, alphaSize);
    forall t, v | 0 <= t < |r| && |r[t]| == alphaSize && 0 <= v < alphaSize
      ensures r[t][v] == Given(sel + [bt], syms, t, v)
    {
      GivenMore(sel, bt, syms, t, v);
    }
  }

  /** One pass: give each group of fifty its cheapest table and count what each table got. */
  method SelectTables(lens: Lens, syms: seq<nat>, alphaSize: nat) returns (sel: seq<nat>, rfreq: seq<seq<int>>)
    requires lens != [] && Shape(lens, |lens|, alphaSize) && InAlphabet(syms, alphaSize)
    ensures ValidSelectors(sel, |lens|) && GROUP_SIZE * |sel| - GROUP_SIZE < |syms| <= GROUP_SIZE * |sel|
    ensures forall g :: 0 <= g < |sel| ==> Cheapest(lens, syms, g, sel[g])
    ensures |rfreq| == |lens| && Frequencies(rfreq, |lens|, alphaSize, |syms|) && Tallies(rfreq, sel, syms, alphaSize)
  {
    hide Total, Cost, Occurs, Cheapest;
    sel := [];
    rfreq := seq(|lens|, _ => seq(alphaSize, _ => 0));
    TotalZero(alphaSize);
    var gs := 0;
    while gs < |syms|
      invariant 0 <= gs <= |syms| && ValidSelectors(sel, |lens|) && Frequencies(rfreq, |lens|, alphaSize, gs)
      invariant gs == GROUP_SIZE * |sel|
          || (gs == |syms| && GROUP_SIZE * |sel| - GROUP_SIZE < |syms| < GROUP_SIZE * |sel|)
      invariant Tallies(rfreq, sel, syms, alphaSize) && forall g :: 0 <= g < |sel| ==> Cheapest(lens, syms, g, sel[g])
    {
      var bt, r, ge := SelectOne(lens, syms, alphaSize, sel, rfreq, gs);
      CheapestIsTable(lens, syms, |sel|, bt);
      sel, rfreq, gs := sel + [bt], r, ge + 1;
    }
  }

  lemma CheapestIsTable(lens: Lens, syms: seq<nat>, g: nat, bt: nat)
    requires GROUP_SIZE * g <= |syms| && forall t :: 0 <= t < |lens| ==> InAlphabet(syms, |lens[t]|)
    requires Cheapest(lens, syms, g, bt)
    ensures bt < |lens|
  {
  }

  ghost predicate AllComplete(lens: Lens, alphaSize: nat) {
    forall t :: 0 <= t < |lens| ==> |lens[t]| == alphaSize && Complete(lens[t], CODE_LIMIT)
  }

  /** The limit of 17 bits is ample for any alphabet. */
  lemma EnoughBits(row: seq<int>)
    requires NonNegative(row) && 2 <= |row| <= MAX_ALPHA && Sum(Positives(row)) < 8388608
    ensures RescalingEnds(Positives(row), CODE_LIMIT)
  {
    hide RescalingEnds, Sum, HuffmanTree.Fib;
    HuffmanTree.FibValues();
    HuffmanTree.FibMonotone(13, CODE_LIMIT + 1);
    EndsSoon(Positives(row), CODE_LIMIT);
  }

  /** Each table is measured by the frequencies it was given. */
  ghost predicate AllMeasured(lens: Lens, rfreq: seq<seq<int>>) {
    |lens| <= |rfreq| && forall t :: 0 <= t < |lens| ==>
      NonNegative(rfreq[t]) && Measured(lens[t], Positives(rfreq[t]), CODE_LIMIT)
  }

  /** Recompute every table from the frequencies it was given. */
  method Remeasure(rfreq: seq<seq<int>>, alphaSize: nat, ghost bound: nat) returns (lens: Lens)
    requires Frequencies(rfreq, |rfreq|, alphaSize, bound) && bound + alphaSize < 8388608 && 2 <= alphaSize <= MAX_ALPHA
    ensures |lens| == |rfreq| && AllComplete(lens, alphaSize) && AllMeasured(lens, rfreq)
  {
    hide Complete, Total, Sum, Measured, RescalingEnds;
    lens := [];
    var t := 0;
    while t < |rfreq|
      invariant 0 <= t == |lens| <= |rfreq| && AllComplete(lens, alphaSize) && AllMeasured(lens, rfreq)
    {
      var len := new byte[MAX_ALPHA](_ => 0);
      TotalToSum(rfreq[t]);
      EnoughBits(rfreq[t]);
      MakeCodeLengths(len, rfreq[t], alphaSize, CODE_LIMIT);
      lens := lens + [len[..alphaSize]];
      t := t + 1;
    }
  }

  // ---- what the passes settle on ----

  /** How often each symbol occurs in the groups given to table `t`. */
  function Tally(sel: seq<nat>, syms: seq<nat>, t: nat, alphaSize: nat): (f: seq<int>)
    requires GROUP_SIZE * |sel| - GROUP_SIZE <= |syms|
    ensures |f| == alphaSize && forall v :: 0 <= v < alphaSize ==> f[v] == Given(sel, syms, t, v)
  {
    seq(alphaSize, v requires 0 <= v < alphaSize => Given(sel, syms, t, v))
  }

  /** A selector for every group of fifty, the last one perhaps shorter. */
  ghost predicate CoversGroups(sel: seq<nat>, n: nat) {
    50 * |sel| - 50 < n <= 50 * |sel|
  }

  /** One pass: every group selects its cheapest old table, every new table is measured by the groups it was given. */
  ghost predicate Pass(before: Lens, sel: seq<nat>, lens: Lens, syms: seq<nat>, alphaSize: nat) {
    && |before| == |lens| && Shape(before, |before|, alphaSize) && InAlphabet(syms, alphaSize)
    && CoversGroups(sel, |syms|)
    && (forall g :: 0 <= g < |sel| ==> Cheapest(before, syms, g, sel[g]))
    && (forall t :: 0 <= t < |lens| ==> Measured(lens[t], Positives(Tally(sel, syms, t, alphaSize)), 17))
  }

  /** Passes lead from the first tables to the last. */
  ghost predicate Passes(tables: seq<Lens>, sels: seq<seq<nat>>, syms: seq<nat>, alphaSize: nat) {
    && |tables| == |sels| + 1
    && forall i {:trigger sels[i]} :: 0 <= i < |sels| ==> Pass(tables[i], sels[i], tables[i + 1], syms, alphaSize)
  }

  function SymbolCounts(syms: seq<nat>, alphaSize: nat): (f: seq<int>)
    ensures |f| == alphaSize && forall v :: 0 <= v < alphaSize ==> f[v] == multiset(syms)[v]
  {
    seq(alphaSize, v => multiset(syms)[v])
  }

  /** Four passes from the initial tables. */
  ghost predicate FourPasses(syms: seq<nat>, alphaSize: nat, lens: Lens, sel: seq<nat>) {
    exists tables, sels ::
      && Passes(tables, sels, syms, alphaSize) && |sels| == 4 && lens == tables[4] && sel == sels[3]
      && InitialChoice(tables[0], SymbolCounts(syms, alphaSize), |syms|, |lens|)
  }

  lemma TalliesAre(rfreq: seq<seq<int>>, sel: seq<nat>, syms: seq<nat>, alphaSize: nat, bound: nat)
    requires GROUP_SIZE * |sel| - GROUP_SIZE <= |syms| && Tallies(rfreq, sel, syms, alphaSize)
    requires Frequencies(rfreq, |rfreq|, alphaSize, bound)
    ensures forall t :: 0 <= t < |rfreq| ==> rfreq[t] == Tally(sel, syms, t, alphaSize)
  {
  }

  /** One turn of the loop over the passes. */
  method OnePass(before: Lens, mtfv: seq<nat>, alphaSize: nat) returns (sel: seq<nat>, lens: Lens)
    requires before != [] && Shape(before, |before|, alphaSize) && InAlphabet(mtfv, alphaSize)
    requires mtfv != [] && 2 <= alphaSize <= MAX_ALPHA && |mtfv| <= 900001
    ensures |lens| == |before| && AllComplete(lens, alphaSize) && ValidSelectors(sel, |lens|)
    ensures Pass(before, sel, lens, mtfv, alphaSize)
  {
    hide Total, Cheapest, Measured, Complete, Given;
    var rfreq;
    sel, rfreq := SelectTables(before, mtfv, alphaSize);
    lens := Remeasure(rfreq, alphaSize, |mtfv|);
    TalliesAre(rfreq, sel, mtfv, alphaSize, |mtfv|);
  }

  lemma OneMorePass(tables: seq<Lens>, sels: seq<seq<nat>>, sel: seq<nat>, lens: Lens, syms: seq<nat>, alphaSize: nat)
    requires Passes(tables, sels, syms, alphaSize) && Pass(tables[|sels|], sel, lens, syms, alphaSize)
    ensures Passes(tables + [lens], sels + [sel], syms, alphaSize)
  {
    hide Pass;
    var ts, ss := tables + [lens], sels + [sel];
    forall i | 0 <= i < |ss|
      ensures Pass(ts[i], ss[i], ts[i + 1], syms, alphaSize)
    {
      assert ts[i] == tables[i];
      assert i < |sels| ==> ss[i] == sels[i] && ts[i + 1] == tables[i + 1];
    }
  }

  /** All of sendMTFValues up to the point where it starts to transmit. */
  method ChooseTables(mtfv: seq<nat>, alphaSize: nat) returns (lens: Lens, sel: seq<nat>)
    requires mtfv != [] && InAlphabet(mtfv, alphaSize) && 2 <= alphaSize <= MAX_ALPHA && |mtfv| <= 900001
    ensures |lens| == GroupCount(|mtfv|) && AllComplete(lens, alphaSize)
    ensures ValidSelectors(sel, |lens|) && CoversGroups(sel, |mtfv|) && FourPasses(mtfv, alphaSize, lens, sel)
  {
    hide AllComplete, ValidSelectors, InAlphabet, InitialChoice, Passes, Pass, CoversGroups;
    var nGroups := GroupCount(|mtfv|);
    var mtfFreq := CountSymbols(mtfv, alphaSize);
    assert mtfFreq == SymbolCounts(mtfv, alphaSize);
    lens := InitialTables(mtfFreq, |mtfv|, nGroups);
    ghost var tables, sels := [lens], [];
    sel := [];
    NoPasses(lens, mtfv, alphaSize);
    var iter := 0;
    while iter < N_ITERS
      invariant 0 <= iter <= N_ITERS && |lens| == nGroups && Shape(lens, nGroups, alphaSize)
      invariant Passes(tables, sels, mtfv, alphaSize) && |sels| == iter && |tables| == iter + 1
      invariant lens == tables[iter] && InitialChoice(tables[0], SymbolCounts(mtfv, alphaSize), |mtfv|, nGroups)
      invariant iter > 0 ==> sel == sels[iter - 1] && AllComplete(lens, alphaSize) && ValidSelectors(sel, nGroups)
      invariant iter > 0 ==> CoversGroups(sel, |mtfv|)
    {
      ghost var before := lens;
      sel, lens := OnePass(lens, mtfv, alphaSize);
      CompleteShape(lens, alphaSize);
      OneMorePass(tables, sels, sel, lens, mtfv, alphaSize);
      PassCovers(before, sel, lens, mtfv, alphaSize);
      tables, sels := tables + [lens], sels + [sel];
      iter := iter + 1;
    }
  }

  lemma PassCovers(before: Lens, sel: seq<nat>, lens: Lens, syms: seq<nat>, alphaSize: nat)
    requires Pass(before, sel, lens, syms, alphaSize)
    ensures CoversGroups(sel, |syms|)
  {
  }

  lemma NoPasses(first: Lens, syms: seq<nat>, alphaSize: nat)
    ensures Passes([first], [], syms, alphaSize)
  {
  }

  lemma CompleteShape(lens: Lens, alphaSize: nat)
    requires AllComplete(lens, alphaSize)
    ensures Shape(lens, |lens|, alphaSize)
  {
  }

  lemma CompleteFits(row: seq<byte>)
    requires Complete(row, CODE_LIMIT)
    ensures FitsKraft(row, MAX_LEN)
  {
    hide Pow2, Kraft;
    KraftScales(row, CODE_LIMIT, MAX_LEN - CODE_LIMIT);
    Pow2Add(CODE_LIMIT, MAX_LEN - CODE_LIMIT);
  }

  /** What ChooseTables settles on is a coding the format admits. */
  lemma ChoiceIsValid(used: UseMap, lens: Lens, sel: seq<nat>, n: nat)
    requires |lens| == GroupCount(n) && AllComplete(lens, AlphaSize(used)) && ValidSelectors(sel, |lens|)
    requires AlphaSize(used) >= 3
    requires 0 < n <= 900001 && CoversGroups(sel, n)
    ensures ValidCoding(Coding(used, lens, sel), n) && |sel| <= 18001
  {
    hide Kraft, Complete, FitsKraft;
    forall t | 0 <= t < |lens|
      ensures ValidLens(lens[t], AlphaSize(used))
    {
      CompleteFits(lens[t]);
    }
  }
}
