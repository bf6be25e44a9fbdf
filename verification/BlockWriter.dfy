/** The transmitting half of sendMTFValues, bit by bit through bsW. */
module BlockWriter {
  import opened Base
  import opened BitString
  import opened BitIO
  import opened MoveToFront
  import opened MtfEncoder
  import opened CanonicalCode
  import opened BlockFormat
  import opened BlockReader
  import opened BlockRoundTrip

  method WriteBit(w: BitWriter, b: bool)
    requires w.Valid()
    modifies w
    ensures w.Valid() && w.Written() == old(w.Written()) + [b]
  {
    assert ToBits(Bit(b), 1) == [b];
    w.Write(1, if b then 1 else 0);
  }

  // ---- the mapping table ----

  method GroupInUse(inUse: UseMap, i: nat) returns (any: bool)
    requires i < 16
    ensures any == GroupUsed(inUse, i)
  {
    any := false;
    var j := 0;
    ghost var s := inUse[16 * i..16 * i + 16];
    while j < 16
      invariant 0 <= j <= 16 && any == (true in s[..j])
    {
      assert s[..j + 1] == s[..j] + [inUse[i * 16 + j]];
      if inUse[i * 16 + j] {
        any := true;
      }
      j := j + 1;
    }
    assert s[..16] == s;
  }

  method GroupsInUse(inUse: UseMap) returns (inUse16: seq<bool>)
    ensures inUse16 == UsedGroups(inUse)
  {
    hide GroupUsed;
    inUse16 := [];
    var i := 0;
    while i < 16
      invariant 0 <= i <= 16 && inUse16 == UsedGroups(inUse)[..i]
    {
      var any := GroupInUse(inUse, i);
      inUse16 := inUse16 + [any];
      i := i + 1;
    }
  }

  method WriteBits(w: BitWriter, s: seq<bool>)
    requires w.Valid()
    modifies w
    ensures w.Valid() && w.Written() == old(w.Written()) + s
  {
    hide BitWriter.Valid, BitWriter.Written;
    ghost var start := w.Written();
    var i := 0;
    while i < |s|
      invariant 0 <= i <= |s| && w.Valid() && w.Written() == start + s[..i]
    {
      assert s[..i + 1] == s[..i] + [s[i]];
      WriteBit(w, s[i]);
      i := i + 1;
    }
    assert s[..i] == s;
  }

  method WriteMapping(w: BitWriter, inUse: UseMap)
    requires w.Valid()
    modifies w
    ensures w.Valid() && w.Written() == old(w.Written()) + MapBits(inUse)
  {
    hide BitWriter.Valid, BitWriter.Written, GroupUsed;
    ghost var start := w.Written();
    var inUse16 := GroupsInUse(inUse);
    WriteBits(w, inUse16);
    Associate(start, inUse16, GroupMaps(inUse, 0));
    var i := 0;
    while i < 16
      invariant 0 <= i <= 16 && w.Valid()
      invariant w.Written() + GroupMaps(inUse, i) == start + MapBits(inUse)
    {
      if inUse16[i] {
        Associate(w.Written(), inUse[16 * i..16 * i + 16], GroupMaps(inUse, i + 1));
        WriteBits(w, inUse[16 * i..16 * i + 16]);
      } else {
        assert [] + GroupMaps(inUse, i + 1) == GroupMaps(inUse, i + 1);
      }
      i := i + 1;
    }
    assert w.Written() + [] == w.Written();
  }

  // ---- the selectors ----

  /** Finds table `ll` in pos and moves it to the front. */
  method MoveSelector(pos: array<int>, n: nat, ll: int) returns (j: nat)
    requires 0 < n <= pos.Length && ll in pos[..n]
    modifies pos
    ensures j < n && j == IndexOf(old(pos[..n]), ll) && pos[..n] == Move(old(pos[..n]), j)
  {
    hide IndexOf;
    ghost var list := pos[..n];
    ghost var k := IndexOf(list, ll);
    j := 0;
    var tmp := pos[0];
    while ll != tmp
      invariant 0 <= j <= k && tmp == list[j]
      invariant forall i :: 1 <= i <= j ==> pos[i] == list[i - 1]
      invariant forall i :: j < i < n ==> pos[i] == list[i]
      decreases k - j
    {
      j := j + 1;
      var tmp2 := tmp;
      tmp := pos[j];
      pos[j] := tmp2;
    }
    pos[0] := tmp;
    assert j == k;
  }

  lemma SelectorMtfStep(pos: seq<int>, sel: seq<nat>, k: nat)
    requires sel != [] && (forall i :: 0 <= i < |sel| ==> sel[i] in pos) && k == IndexOf(pos, sel[0])
    ensures forall i :: 0 <= i < |sel[1..]| ==> sel[1..][i] in Move(pos, k)
    ensures SelectorMtf(pos, sel) == [k] + SelectorMtf(Move(pos, k), sel[1..])
  {
    MoveKeepsElements(pos, k);
  }

  method MakeSelectorMtf(selector: seq<nat>, nGroups: nat) returns (m: seq<nat>)
    requires 1 <= nGroups <= MAX_GROUPS && forall i :: 0 <= i < |selector| ==> selector[i] in Range(nGroups)
    ensures m == SelectorMtf(Range(nGroups), selector)
  {
    hide SelectorMtf;
    var pos := new int[MAX_GROUPS](i => i);
    m := [];
    ghost var all := SelectorMtf(Range(nGroups), selector);
    assert pos[..nGroups] == Range(nGroups) && selector[0..] == selector && [] + all == all;
    var i := 0;
    while i < |selector|
      invariant 0 <= i <= |selector|
      invariant forall k :: 0 <= k < |selector[i..]| ==> selector[i..][k] in pos[..nGroups]
      invariant m + SelectorMtf(pos[..nGroups], selector[i..]) == all
    {
      ghost var p, rest := pos[..nGroups], selector[i..];
      assert rest[0] == selector[i] && rest[1..] == selector[i + 1..];
      assert rest[0] in p;
      SelectorMtfStep(p, rest, IndexOf(p, rest[0]));
      var j := MoveSelector(pos, nGroups, selector[i]);
      Associate(m, [j], SelectorMtf(pos[..nGroups], selector[i + 1..]));
      m := m + [j];
      i := i + 1;
    }
    assert selector[i..] == [];
    assert SelectorMtf(pos[..nGroups], []) == [];
  }

  method WriteUnary(w: BitWriter, n: nat)
    requires w.Valid()
    modifies w
    ensures w.Valid() && w.Written() == old(w.Written()) + Unary(n)
  {
    hide BitWriter.Valid, BitWriter.Written;
    ghost var start := w.Written();
    var j := 0;
    while j < n
      invariant 0 <= j <= n && w.Valid()
      invariant w.Written() + Unary(n - j) == start + Unary(n)
    {
      Associate(w.Written(), [true], Unary(n - j - 1));
      WriteBit(w, true);
      j := j + 1;
    }
    WriteBit(w, false);
  }

  method WriteSelectors(w: BitWriter, m: seq<nat>)
    requires w.Valid()
    modifies w
    ensures w.Valid() && w.Written() == old(w.Written()) + UnaryAll(m)
  {
    hide BitWriter.Valid, BitWriter.Written, Unary;
    ghost var start := w.Written();
    var i := 0;
    assert m[0..] == m;
    while i < |m|
      invariant 0 <= i <= |m| && w.Valid()
      invariant w.Written() + UnaryAll(m[i..]) == start + UnaryAll(m)
    {
      assert m[i..][0] == m[i] && m[i..][1..] == m[i + 1..];
      Associate(w.Written(), Unary(m[i]), UnaryAll(m[i + 1..]));
      WriteUnary(w, m[i]);
      i := i + 1;
    }
    assert m[i..] == [] && w.Written() + [] == w.Written();
  }

  // ---- the code lengths ----

  method WriteDelta(w: BitWriter, curr0: nat, x: nat)
    requires w.Valid()
    modifies w
    ensures w.Valid() && w.Written() == old(w.Written()) + Delta(curr0, x)
  {
    hide BitWriter.Valid, BitWriter.Written, Delta, Pow2, ToBits;
    ghost var start := w.Written();
    var curr := curr0;
    TwoBits();
    while curr < x
      invariant w.Valid() && (curr <= x || curr == curr0)
      invariant w.Written() + Delta(curr, x) == start + Delta(curr0, x)
    {
      DeltaStep(curr, x);
      Associate(w.Written(), [true, false], Delta(curr + 1, x));
      w.Write(2, 2);
      curr := curr + 1;
    }
    while curr > x
      invariant curr >= x && w.Valid()
      invariant w.Written() + Delta(curr, x) == start + Delta(curr0, x)
    {
      DeltaStep(curr, x);
      Associate(w.Written(), [true, true], Delta(curr - 1, x));
      w.Write(2, 3);
      curr := curr - 1;
    }
    DeltaStep(curr, x);
    WriteBit(w, false);
  }

  lemma TwoBits()
    ensures Pow2(2) == 4 && ToBits(2, 2) == [true, false] && ToBits(3, 2) == [true, true]
  {
  }

  lemma DeltaStep(curr: nat, x: nat)
    ensures curr < x ==> Delta(curr, x) == [true, false] + Delta(curr + 1, x)
    ensures curr > x ==> Delta(curr, x) == [true, true] + Delta(curr - 1, x)
    ensures curr == x ==> Delta(curr, x) == [false]
  {
  }

  method WriteRow(w: BitWriter, row: seq<byte>)
    requires w.Valid() && row != [] && row[0] < 32
    modifies w
    ensures w.Valid() && w.Written() == old(w.Written()) + RowBits(row)
  {
    hide BitWriter.Valid, BitWriter.Written, Delta, ToBits;
    ghost var start := w.Written();
    assert Pow2(5) == 32;
    var curr: byte := row[0];
    w.Write(5, curr);
    Associate(start, ToBits(row[0], 5), Deltas(row[0], row));
    var i := 0;
    assert row[0..] == row;
    while i < |row|
      invariant 0 <= i <= |row| && w.Valid()
      invariant w.Written() + Deltas(curr, row[i..]) == start + RowBits(row)
    {
      assert row[i..][0] == row[i] && row[i..][1..] == row[i + 1..];
      Associate(w.Written(), Delta(curr, row[i]), Deltas(row[i], row[i + 1..]));
      WriteDelta(w, curr, row[i]);
      curr := row[i];
      i := i + 1;
    }
    assert row[i..] == [] && w.Written() + [] == w.Written();
  }

  method WriteRows(w: BitWriter, lens: seq<seq<byte>>)
    requires w.Valid() && forall t :: 0 <= t < |lens| ==> lens[t] != [] && lens[t][0] < 32
    modifies w
    ensures w.Valid() && w.Written() == old(w.Written()) + AllRows(lens)
  {
    hide BitWriter.Valid, BitWriter.Written, RowBits;
    ghost var start := w.Written();
    var t := 0;
    assert lens[0..] == lens;
    while t < |lens|
      invariant 0 <= t <= |lens| && w.Valid()
      invariant w.Written() + AllRows(lens[t..]) == start + AllRows(lens)
    {
      assert lens[t..][0] == lens[t] && lens[t..][1..] == lens[t + 1..];
      Associate(w.Written(), RowBits(lens[t]), AllRows(lens[t + 1..]));
      WriteRow(w, lens[t]);
      t := t + 1;
    }
    assert lens[t..] == [] && w.Written() + [] == w.Written();
  }

  // ---- the codes ----

  method LengthRange(row: seq<byte>) returns (minLen: nat, maxLen: nat)
    ensures minLen == MinLen(row) && maxLen == MaxLen(row)
  {
    minLen, maxLen := 32, 0;
    var i := 0;
    while i < |row|
      invariant 0 <= i <= |row| && minLen == MinLen(row[..i]) && maxLen == MaxLen(row[..i])
    {
      assert row[..i + 1][..i] == row[..i];
      if row[i] > maxLen {
        maxLen := row[i];
      }
      if row[i] < minLen {
        minLen := row[i];
      }
      i := i + 1;
    }
    assert row[..i] == row;
  }

  method AssignRow(row: seq<byte>) returns (code: seq<int>)
    requires row != [] && InRange(row)
    ensures |code| == |row| && forall i :: 0 <= i < |row| ==> code[i] == CodeOf(row, i)
  {
    var minLen, maxLen := LengthRange(row);
    LenReached(row);
    forall i | 0 <= i < |row|
      ensures minLen <= row[i] <= maxLen
    {
      LenBounds(row, i);
    }
    var a := new int[|row|](_ => 0);
    AssignCodes(a, row, minLen, maxLen);
    code := a[..];
  }

  /** The code tables of all coding tables. */
  ghost predicate CodesOf(code: seq<seq<int>>, lens: seq<seq<byte>>) {
    |code| == |lens| && forall t :: 0 <= t < |lens| ==> IsCode(code[t], lens[t])
  }

  ghost predicate IsCode(code: seq<int>, row: seq<byte>) {
    |code| == |row| && forall i :: 0 <= i < |row| ==> code[i] == CodeOf(row, i)
  }

  method AssignAll(lens: seq<seq<byte>>) returns (code: seq<seq<int>>)
    requires forall t :: 0 <= t < |lens| ==> lens[t] != [] && InRange(lens[t])
    ensures CodesOf(code, lens)
  {
    code := [];
    var t := 0;
    while t < |lens|
      invariant 0 <= t == |code| <= |lens| && forall u :: 0 <= u < t ==> IsCode(code[u], lens[u])
    {
      var row := AssignRow(lens[t]);
      code := code + [row];
      t := t + 1;
    }
  }

  method WriteCode(w: BitWriter, row: seq<byte>, code: seq<int>, s: nat)
    requires w.Valid() && s < |row| && FitsKraft(row, MAX_LEN) && IsCode(code, row)
    modifies w
    ensures w.Valid() && w.Written() == old(w.Written()) + CodeBits(row, s)
  {
    hide BitWriter.Valid, BitWriter.Written, CodeOf, Kraft;
    CodeFits(row, MAX_LEN, s);
    w.Write(row[s], code[s]);
  }

  /** The symbols gs..ge with one table. */
  method WriteGroup(w: BitWriter, ghost c: Coding, syms: seq<nat>, row: seq<byte>, code: seq<int>, gs: nat, ge: nat)
    requires w.Valid() && ValidCoding(c, |syms|) && SymbolsFit(c, syms) && gs <= ge + 1 <= |syms|
    requires gs % GROUP_SIZE == 0 && ge - gs < GROUP_SIZE && (gs <= ge ==> row == c.lens[c.selectors[gs / GROUP_SIZE]])
    requires FitsKraft(row, MAX_LEN) && |row| == AlphaSize(c.used) && IsCode(code, row)
    modifies w
    ensures w.Valid()
    ensures w.Written() + CodesFrom(c, syms, ge + 1) == old(w.Written()) + CodesFrom(c, syms, gs)
  {
    hide BitWriter.Valid, BitWriter.Written, CodeBits, ValidCoding, FitsKraft, AlphaSize, IsCode;
    var i := gs;
    while i <= ge
      invariant gs <= i <= ge + 1 && w.Valid()
      invariant w.Written() + CodesFrom(c, syms, i) == old(w.Written()) + CodesFrom(c, syms, gs)
    {
      SameGroup(gs, i);
      Associate(w.Written(), CodeBits(row, syms[i]), CodesFrom(c, syms, i + 1));
      WriteCode(w, row, code, syms[i]);
      i := i + 1;
    }
  }

  lemma SameGroup(gs: nat, i: nat)
    requires gs % GROUP_SIZE == 0 && gs <= i < gs + GROUP_SIZE
    ensures i / GROUP_SIZE == gs / GROUP_SIZE
  {
  }

  method WriteCodes(w: BitWriter, c: Coding, syms: seq<nat>, code: seq<seq<int>>)
    requires w.Valid() && ValidCoding(c, |syms|) && SymbolsFit(c, syms) && CodesOf(code, c.lens)
    modifies w
    ensures w.Valid() && w.Written() == old(w.Written()) + CodesFrom(c, syms, 0)
  {
    hide BitWriter.Valid, BitWriter.Written, CodesFrom, FitsKraft, AlphaSize, IsCode, Used;
    var selCtr, gs := 0, 0;
    while gs < |syms|
      invariant 0 <= gs <= |syms| && w.Valid()
      invariant gs < |syms| ==> gs == GROUP_SIZE * selCtr
      invariant w.Written() + CodesFrom(c, syms, gs) == old(w.Written()) + CodesFrom(c, syms, 0)
    {
      var ge := gs + GROUP_SIZE - 1;
      if ge >= |syms| {
        ge := |syms| - 1;
      }
      GroupStart(gs, selCtr, |syms|, |c.selectors|);
      var t := c.selectors[selCtr];
      WriteGroup(w, c, syms, c.lens[t], code[t], gs, ge);
      gs := ge + 1;
      selCtr := selCtr + 1;
    }
    NoCodesLeft(c, syms);
    assert w.Written() + [] == w.Written();
  }

  lemma GroupStart(gs: nat, selCtr: nat, n: nat, sels: nat)
    requires gs == GROUP_SIZE * selCtr < n <= GROUP_SIZE * sels
    ensures gs / GROUP_SIZE == selCtr < sels && gs % GROUP_SIZE == 0
  {
  }

  lemma NoCodesLeft(c: Coding, syms: seq<nat>)
    requires ValidCoding(c, |syms|) && SymbolsFit(c, syms)
    ensures CodesFrom(c, syms, |syms|) == []
  {
  }

  lemma Fields(w0: Bits, a: Bits, b: Bits, c: Bits, d: Bits, e: Bits, f: Bits)
    ensures w0 + a + b + c + d + e + f == w0 + (a + (b + (c + (d + (e + f)))))
  {
  }

  /** What sendMTFValues transmits, given the tables and selectors it settled on. */
  method SendMtfValues(w: BitWriter, c: Coding, syms: seq<nat>)
    requires w.Valid() && ValidCoding(c, |syms|) && SymbolsFit(c, syms)
    modifies w
    ensures w.Valid() && w.Written() == old(w.Written()) + BodyBits(c, syms)
  {
    hide BitWriter.Valid, BitWriter.Written, CodesFrom, AlphaSize, Used, MapBits, UnaryAll, AllRows, SelectorMtf;
    hide CodesOf, ToBits;
    ghost var start := w.Written();
    ReadySelectors(c, |syms|);
    RowsInRange(c, |syms|);
    assert Pow2(3) == 8 && Pow2(15) == 32768;
    var selectorMtf := MakeSelectorMtf(c.selectors, |c.lens|);
    var code := AssignAll(c.lens);
    WriteMapping(w, c.used);
    w.Write(3, |c.lens|);
    w.Write(15, |c.selectors|);
    WriteSelectors(w, selectorMtf);
    WriteRows(w, c.lens);
    WriteCodes(w, c, syms, code);
    Fields(start, MapBits(c.used), ToBits(|c.lens|, 3), ToBits(|c.selectors|, 15), UnaryAll(selectorMtf),
        AllRows(c.lens), CodesFrom(c, syms, 0));
  }
}
