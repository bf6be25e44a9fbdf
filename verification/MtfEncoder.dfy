/** makeMaps_e, makeMaps_d and generateMTFValues. */
module MtfEncoder {
  import opened Base
  import opened Rotations
  import opened InverseBwt
  import opened MoveToFront

  // ---- the bytes in use, renumbered densely ----

  /** The bytes below `n` that are in use, ascending: seqToUnseq. */
  function Used(inUse: seq<bool>, n: nat): (u: seq<int>)
    requires n <= |inUse|
    ensures |u| <= n && forall i :: 0 <= i < |u| ==> 0 <= u[i] < n && inUse[u[i]]
  {
    if n == 0 then [] else Used(inUse, n - 1) + if inUse[n - 1] then [n - 1] else []
  }

  /** unseqToSeq: the rank of a byte among those in use. */
  function Rank(inUse: seq<bool>, c: nat): nat
    requires c <= |inUse|
  {
    |Used(inUse, c)|
  }

  lemma {:induction false} UsedAtRank(inUse: seq<bool>, c: nat, n: nat)
    requires c < n <= |inUse| && inUse[c]
    ensures Rank(inUse, c) < |Used(inUse, n)| && Used(inUse, n)[Rank(inUse, c)] == c
  {
    if c < n - 1 {
      UsedAtRank(inUse, c, n - 1);
    }
  }

  method MakeMapsE(inUse: seq<bool>) returns (unseqToSeq: seq<int>, nInUse: nat)
    requires |inUse| == 256
    ensures nInUse == |Used(inUse, 256)| && |unseqToSeq| == 256
    ensures forall c :: 0 <= c < 256 && inUse[c] ==> unseqToSeq[c] == Rank(inUse, c)
  {
    nInUse := 0;
    var map_ := new int[256](_ => 0);
    var i := 0;
    while i < 256
      invariant 0 <= i <= 256 && nInUse == Rank(inUse, i)
      invariant forall c :: 0 <= c < i && inUse[c] ==> map_[c] == Rank(inUse, c)
    {
      if inUse[i] {
        map_[i] := nInUse;
        nInUse := nInUse + 1;
      }
      i := i + 1;
    }
    unseqToSeq := map_[..];
  }

  method MakeMapsD(inUse: seq<bool>) returns (seqToUnseq: seq<int>)
    requires |inUse| == 256
    ensures seqToUnseq == Used(inUse, 256)
  {
    seqToUnseq := [];
    var i := 0;
    while i < 256
      invariant 0 <= i <= 256 && seqToUnseq == Used(inUse, i)
    {
      if inUse[i] {
        seqToUnseq := seqToUnseq + [i];
      }
      i := i + 1;
    }
  }

  /** inUse marks every byte of `l`. */
  ghost predicate Marks(inUse: seq<bool>, l: seq<byte>) {
    |inUse| == 256 && forall i :: 0 <= i < |l| ==> inUse[l[i]]
  }

  /** The last column in dense numbering, as the encoder moves it to front. */
  function Ranked(inUse: seq<bool>, l: seq<byte>): (col: seq<int>)
    requires |inUse| == 256
    ensures |col| == |l| && forall i :: 0 <= i < |l| ==> col[i] == Rank(inUse, l[i])
  {
    seq(|l|, i requires 0 <= i < |l| => Rank(inUse, l[i]))
  }

  lemma RankedInList(inUse: seq<bool>, l: seq<byte>)
    requires Marks(inUse, l)
    ensures forall i :: 0 <= i < |l| ==> Ranked(inUse, l)[i] in Range(|Used(inUse, 256)|)
    ensures forall i :: 0 <= i < |l| ==>
        Ranked(inUse, l)[i] < |Used(inUse, 256)| && Used(inUse, 256)[Ranked(inUse, l)[i]] == l[i]
  {
    forall i | 0 <= i < |l|
      ensures Ranked(inUse, l)[i] < |Used(inUse, 256)| && Used(inUse, 256)[Ranked(inUse, l)[i]] == l[i]
      ensures Ranked(inUse, l)[i] in Range(|Used(inUse, 256)|)
    {
      UsedAtRank(inUse, l[i], 256);
      assert Range(|Used(inUse, 256)|)[Rank(inUse, l[i])] == Rank(inUse, l[i]);
    }
  }

  /** The symbols of a block: move-to-front of the ranked column, then end-of-block. */
  function BlockSymbols(inUse: seq<bool>, l: seq<byte>): (s: seq<nat>)
    requires Marks(inUse, l)
  {
    RankedInList(inUse, l);
    Symbols(Range(|Used(inUse, 256)|), 0, Ranked(inUse, l)) + [|Used(inUse, 256)| + 1]
  }

  // ---- arr1: ptr as 32-bit words, mtfv as 16-bit words, in the same storage ----

  function LoadPtr(arr1: seq<int>, i: nat): int
    requires 2 * i + 1 < |arr1|
  {
    arr1[2 * i] + 65536 * arr1[2 * i + 1]
  }

  /** From row `i` on, arr1 still holds the sorted order. */
  ghost predicate HoldsPtr(arr1: seq<int>, ptr: seq<int>, i: nat) {
    |arr1| == 2 * |ptr| && forall k :: i <= k < |ptr| ==> LoadPtr(arr1, k) == ptr[k]
  }

  /** `b` is `a` with `out` written from position `wr`, nothing else changed. */
  ghost predicate Appended(a: seq<int>, b: seq<int>, wr: nat, out: seq<nat>) {
    && wr + |out| <= |a| == |b|
    && b[..wr + |out|] == a[..wr] + out
    && b[wr + |out|..] == a[wr + |out|..]
  }

  lemma AppendNone(a: seq<int>, wr: nat)
    requires wr <= |a|
    ensures Appended(a, a, wr, [])
  {
  }

  lemma AppendOne(a: seq<int>, b: seq<int>, wr: nat, out: seq<nat>, s: nat)
    requires Appended(a, b, wr, out) && wr + |out| < |a|
    ensures Appended(a, b[wr + |out| := s], wr, out + [s])
  {
    var c, w := b[wr + |out| := s], wr + |out|;
    assert c[..w + 1] == b[..w] + [s];
    assert a[..wr] + out + [s] == a[..wr] + (out + [s]);
    assert c[w + 1..] == b[w + 1..] == b[w..][1..] == a[w..][1..] == a[w + 1..];
  }

  /** mtfv[wr] = s; wr++. */
  method EmitSymbol(arr1: array<int>, wr: nat, s: nat, ghost a: seq<int>, ghost w0: nat, ghost out: seq<nat>)
    requires wr == w0 + |out| < arr1.Length && Appended(a, arr1[..], w0, out)
    modifies arr1
    ensures Appended(a, arr1[..], w0, out + [s])
  {
    ghost var b := arr1[..];
    AppendOne(a, b, w0, out, s);
    arr1[wr] := s;
    assert arr1[..] == b[wr := s];
  }

  lemma DigitsUnroll(z: nat)
    ensures Digits(z + 1) == [if z % 2 == 1 then RUNB else RUNA] + Digits(z / 2)
  {
    var n := z + 1;
    if z % 2 == 0 {
      assert n % 2 == 1 && (n - 1) / 2 == z / 2;
    } else {
      assert n % 2 == 0 && (n - 2) / 2 == z / 2;
    }
  }

  /** Emit the pending zero run (both copies of the loop in generateMTFValues). */
  method FlushRun(arr1: array<int>, wr: nat, zPend: nat) returns (wr': nat)
    requires wr + zPend <= arr1.Length
    modifies arr1
    ensures wr' == wr + |Digits(zPend)| && Appended(old(arr1[..]), arr1[..], wr, Digits(zPend))
  {
    hide Appended;
    ghost var a := arr1[..];
    AppendNone(a, wr);
    ghost var all := Digits(zPend);
    wr' := wr;
    ghost var out: seq<nat> := [];
    if zPend > 0 {
      var z := zPend - 1;
      while true
        invariant z >= 0 && wr' == wr + |out| && Appended(a, arr1[..], wr, out)
        invariant all == out + Digits(z + 1)
        decreases z
      {
        DigitsUnroll(z);
        var s := if z % 2 == 1 then RUNB else RUNA;
        Associate(out, [s], Digits(z / 2));
        EmitSymbol(arr1, wr', s, a, wr, out);
        out := out + [s];
        wr' := wr' + 1;
        if z < 2 {
          assert out + Digits(z / 2) == out;
          break;
        }
        z := (z - 2) / 2;
      }
    }
  }

  /** The register shuffle that finds `c` in yy and moves it to the front; returns its old position. */
  method FindAndMove(yy: array<int>, n: nat, c: int) returns (j: nat)
    requires n <= yy.Length && c in yy[..n] && yy[0] != c
    modifies yy
    ensures j == IndexOf(old(yy[..n]), c) > 0 && yy[..n] == Move(old(yy[..n]), j)
  {
    ghost var list := yy[..n];
    ghost var k := IndexOf(list, c);
    var rtmp := yy[1];
    yy[1] := yy[0];
    j := 1;
    while c != rtmp
      invariant 1 <= j <= k && rtmp == list[j]
      invariant forall i :: 1 <= i <= j ==> yy[i] == list[i - 1]
      invariant yy[0] == list[0] && forall i :: j < i < n ==> yy[i] == list[i]
      decreases k - j
    {
      j := j + 1;
      var rtmp2 := rtmp;
      rtmp := yy[j];
      yy[j] := rtmp2;
    }
    yy[0] := rtmp;
    assert j == k;
  }

  /** The state of generateMTFValues before row `i`: nothing unread is overwritten, nothing emitted is wrong. */
  ghost predicate Encoding(arr: seq<int>, ptr: seq<int>, i: nat, wr: nat, list: seq<int>, zPend: nat, col: seq<int>,
          all: seq<nat>) {
    && i <= |ptr| == |col| && HoldsPtr(arr, ptr, i) && wr + zPend <= i
    && (forall k :: 0 <= k < |col| ==> col[k] in list)
    && arr[..wr] + Symbols(list, zPend, col[i..]) == all
  }

  lemma TailOf(col: seq<int>, i: nat)
    requires i < |col|
    ensures col[i..][0] == col[i] && col[i..][1..] == col[i + 1..]
  {
  }

  /** Front-of-list hit: only the count changes. */
  lemma EncodeHit(arr: seq<int>, ptr: seq<int>, i: nat, wr: nat, list: seq<int>, zPend: nat, col: seq<int>,
          all: seq<nat>)
    requires Encoding(arr, ptr, i, wr, list, zPend, col, all) && i < |ptr| && list[0] == col[i]
    ensures Encoding(arr, ptr, i + 1, wr, list, zPend + 1, col, all)
  {
    TailOf(col, i);
  }

  /** Miss: the pending run and the position are written behind the rows already read. */
  lemma EncodeMiss(arr: seq<int>, arr': seq<int>, ptr: seq<int>, i: nat, wr: nat, list: seq<int>, zPend: nat,
          col: seq<int>, all: seq<nat>, k: nat)
    requires Encoding(arr, ptr, i, wr, list, zPend, col, all) && i < |ptr| && k == IndexOf(list, col[i]) > 0
    requires Appended(arr, arr', wr, Digits(zPend) + [k + 1])
    ensures Encoding(arr', ptr, i + 1, wr + |Digits(zPend)| + 1, Move(list, k), 0, col, all)
  {
    hide Digits, Symbols;
    TailOf(col, i);
    MoveKeepsElements(list, k);
    var out := Digits(zPend) + [k + 1];
    var wr' := wr + |out|;
    assert wr' <= i + 1;
    forall j | i + 1 <= j < |ptr|
      ensures LoadPtr(arr', j) == ptr[j]
    {
      assert arr'[2 * j] == arr'[wr'..][2 * j - wr'] == arr[wr'..][2 * j - wr'] == arr[2 * j];
      assert arr'[2 * j + 1] == arr'[wr'..][2 * j + 1 - wr'] == arr[wr'..][2 * j + 1 - wr'] == arr[2 * j + 1];
    }
    MissSymbols(list, zPend, col[i..], k);
    Associate(arr[..wr], out, Symbols(Move(list, k), 0, col[i + 1..]));
  }

  lemma MissSymbols(list: seq<int>, zPend: nat, rest: seq<int>, k: nat)
    requires rest != [] && (forall i :: 0 <= i < |rest| ==> rest[i] in list) && k == IndexOf(list, rest[0]) > 0
    ensures forall i :: 0 <= i < |rest[1..]| ==> rest[1..][i] in Move(list, k)
    ensures Symbols(list, zPend, rest) == Digits(zPend) + [k + 1] + Symbols(Move(list, k), 0, rest[1..])
  {
    MoveKeepsElements(list, k);
  }

  lemma SymbolsOfNone(list: seq<int>, zPend: nat)
    ensures Symbols(list, zPend, []) == Digits(zPend)
  {
  }

  /** One row of generateMTFValues. */
  method EncodeRow(arr1: array<int>, yy: array<int>, n: nat, i: nat, wr: nat, zPend: nat, c: int,
                   ghost ptr: seq<int>, ghost col: seq<int>, ghost all: seq<nat>)
    returns (wr': nat, zPend': nat)
    requires arr1 != yy && n <= yy.Length && i < |ptr| && Encoding(arr1[..], ptr, i, wr, yy[..n], zPend, col, all)
    requires c == col[i]
    modifies arr1, yy
    ensures Encoding(arr1[..], ptr, i + 1, wr', yy[..n], zPend', col, all)
  {
    hide Symbols, Digits;
    ghost var arr, list := arr1[..], yy[..n];
    assert list[IndexOf(list, c)] == c;
    if yy[0] == c {
      EncodeHit(arr, ptr, i, wr, list, zPend, col, all);
      wr', zPend' := wr, zPend + 1;
    } else {
      var w := FlushRun(arr1, wr, zPend);
      var j := FindAndMove(yy, n, c);
      EmitSymbol(arr1, w, j + 1, arr, wr, Digits(zPend));
      EncodeMiss(arr, arr1[..], ptr, i, wr, list, zPend, col, all, j);
      wr', zPend' := w + 1, 0;
    }
  }

  /**
   * generateMTFValues: the symbols of the block's last column, produced in the
   * storage that held the sorted order.
   */
  method GenerateMtfValues(arr1: array<int>, block: seq<byte>, inUse: seq<bool>, ghost ptr: seq<int>)
    returns (nMTF: nat)
    requires SortsRotations(block, ptr) && block != [] && Marks(inUse, LastColumn(block, ptr))
    requires HoldsPtr(arr1[..], ptr, 0)
    modifies arr1
    ensures nMTF <= |block| + 1 && nMTF <= arr1.Length
    ensures arr1[..nMTF] == BlockSymbols(inUse, LastColumn(block, ptr))
  {
    hide Symbols, Digits, Used, SortedTo;
    ghost var l := LastColumn(block, ptr);
    ghost var col := Ranked(inUse, l);
    RankedInList(inUse, l);
    var unseqToSeq, nInUse := MakeMapsE(inUse);
    var yy := new int[256](i => i);
    assert yy[..nInUse] == Range(nInUse);
    ghost var all := Symbols(Range(nInUse), 0, col);
    assert col[0..] == col && arr1[..0] + all == all;
    var wr: nat, zPend: nat, i: nat := 0, 0, 0;
    while i < |block|
      invariant 0 <= i <= |block| && Encoding(arr1[..], ptr, i, wr, yy[..nInUse], zPend, col, all)
    {
      var j := arr1[2 * i] + 65536 * arr1[2 * i + 1] - 1;
      assert j == ptr[i] - 1;
      if j < 0 {
        j := j + |block|;
      }
      assert block[j] == l[i];
      wr, zPend := EncodeRow(arr1, yy, nInUse, i, wr, zPend, unseqToSeq[block[j]], ptr, col, all);
      i := i + 1;
    }
    ghost var arr := arr1[..];
    assert col[i..] == [];
    SymbolsOfNone(yy[..nInUse], zPend);
    var w := FlushRun(arr1, wr, zPend);
    EmitSymbol(arr1, w, nInUse + 1, arr, wr, Digits(zPend));
    nMTF := w + 1;
    Associate(arr[..wr], Digits(zPend), [nInUse + 1]);
  }
}
