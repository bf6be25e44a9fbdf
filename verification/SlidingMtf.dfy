/** The decoder's move-to-front list: sixteen 16-entry lists sliding inside a 4096-byte buffer. */
module SlidingMtf {
  import opened Base
  import opened MoveToFront

  const MTFA_SIZE := 4096
  const MTFL_SIZE := 16

  type Rows = seq<seq<int>>

  ghost predicate Square(rows: Rows) {
    |rows| == 16 && forall k :: 0 <= k < 16 ==> |rows[k]| == 16
  }

  /** The lists lie one behind the other inside the buffer, with room before the first. */
  ghost predicate Layout(base: seq<int>) {
    && |base| == 16 && 0 <= base[0] && base[15] + 16 <= MTFA_SIZE
    && forall k :: 0 <= k < 15 ==> base[k] + 16 <= base[k + 1]
  }

  lemma {:induction false} LayoutOrder(base: seq<int>, j: nat, k: nat)
    requires Layout(base) && j < k < 16
    ensures base[j] + 16 * (k - j) <= base[k]
  {
    if j < k - 1 {
      LayoutOrder(base, j, k - 1);
    }
  }

  lemma LayoutInside(base: seq<int>, k: nat)
    requires Layout(base) && k < 16
    ensures 0 <= base[k] && base[k] + 16 <= MTFA_SIZE
  {
    if k > 0 {
      LayoutOrder(base, 0, k);
    }
    if k < 15 {
      LayoutOrder(base, k, 15);
    }
  }

  /** Row `k` of the buffer from column `from` on reads as rows[k]. */
  ghost predicate RowIs(a: seq<int>, at: int, row: seq<int>, from: nat) {
    && |a| == MTFA_SIZE && |row| == 16 && 0 <= at && at + 16 <= MTFA_SIZE
    && forall s {:trigger row[s]} :: from <= s < 16 ==> a[at + s] == row[s]
  }

  ghost predicate Represents(a: seq<int>, base: seq<int>, rows: Rows) {
    && Layout(base) && Square(rows)
    && forall k :: 0 <= k < 16 ==> RowIs(a, base[k], rows[k], 0)
  }

  /** The 256-entry list the rows stand for. */
  function Flatten(rows: Rows): (list: seq<int>)
    requires |rows| == 16 && forall k :: 0 <= k < 16 ==> |rows[k]| == 16
    ensures |list| == 256
  {
    seq(256, i requires 0 <= i < 256 => rows[i / 16][i % 16])
  }

  /** What moving entry `off` of row `lno` to the front leaves in row `k`. */
  function MovedRow(rows: Rows, lno: nat, off: nat, k: nat): (row: seq<int>)
    requires |rows| == 16 && (forall k :: 0 <= k < 16 ==> |rows[k]| == 16) && lno < 16 && off < 16 && k < 16
    ensures |row| == 16
  {
    var first := if k == 0 then rows[lno][off] else rows[k - 1][15];
    if k < lno then [first] + rows[k][..15]
    else if k == lno then [first] + rows[k][..off] + rows[k][off + 1..]
    else rows[k]
  }

  function MoveRows(rows: Rows, lno: nat, off: nat): (r: Rows)
    requires |rows| == 16 && (forall k :: 0 <= k < 16 ==> |rows[k]| == 16) && lno < 16 && off < 16
    ensures |r| == 16 && forall k :: 0 <= k < 16 ==> |r[k]| == 16 && r[k] == MovedRow(rows, lno, off, k)
  {
    seq(16, k requires 0 <= k < 16 => MovedRow(rows, lno, off, k))
  }

  /** The row-wise move is the plain move-to-front of the flat list. */
  lemma MoveRowsIsMove(rows: Rows, lno: nat, off: nat)
    requires Square(rows) && lno < 16 && off < 16
    ensures Flatten(MoveRows(rows, lno, off)) == Move(Flatten(rows), 16 * lno + off)
  {
    var list, n := Flatten(rows), 16 * lno + off;
    forall i | 0 <= i < 256
      ensures Flatten(MoveRows(rows, lno, off))[i] == Move(list, n)[i]
    {
      MovedEntry(rows, lno, off, i / 16, i % 16);
      assert i == 16 * (i / 16) + i % 16;
    }
  }

  lemma FlatEntry(rows: Rows, k: nat, s: nat)
    requires Square(rows) && k < 16 && s < 16
    ensures Flatten(rows)[16 * k + s] == rows[k][s]
  {
    assert (16 * k + s) / 16 == k && (16 * k + s) % 16 == s;
  }

  lemma MoveAt(list: seq<int>, n: nat, i: nat)
    requires n < |list| && i < |list|
    ensures Move(list, n)[i] == if i == 0 then list[n] else if i <= n then list[i - 1] else list[i]
  {
  }

  /** Entry `s` of a moved row, by where its flat position lies relative to the moved one. */
  lemma MovedRowAt(rows: Rows, lno: nat, off: nat, k: nat, s: nat)
    requires Square(rows) && lno < 16 && off < 16 && k < 16 && s < 16
    ensures MovedRow(rows, lno, off, k)[s]
            == if k == 0 && s == 0 then rows[lno][off]
               else if k < lno || (k == lno && s <= off) then (if s > 0 then rows[k][s - 1] else rows[k - 1][15])
               else rows[k][s]
  {
  }

  lemma MovedEntry(rows: Rows, lno: nat, off: nat, k: nat, s: nat)
    requires Square(rows) && lno < 16 && off < 16 && k < 16 && s < 16
    ensures MoveRows(rows, lno, off)[k][s] == Move(Flatten(rows), 16 * lno + off)[16 * k + s]
  {
    hide Move, Flatten, MovedRow;
    MoveAt(Flatten(rows), 16 * lno + off, 16 * k + s);
    MovedRowAt(rows, lno, off, k, s);
    FlatEntry(rows, k, s);
    FlatEntry(rows, lno, off);
    if s > 0 {
      FlatEntry(rows, k, s - 1);
    } else if k > 0 {
      FlatEntry(rows, k - 1, 15);
    }
  }

  // ---- the buffer operations ----

  /** `b` is `a` with the cells lo..hi-1 copied one place up, the cell at `lo` left stale. */
  ghost predicate ShiftedUp(a: seq<int>, b: seq<int>, lo: int, hi: int) {
    && |b| == |a| && 0 <= lo <= hi < |a|
    && (forall i {:trigger b[i]} :: lo < i <= hi ==> b[i] == a[i - 1])
    && (forall i {:trigger b[i]} :: 0 <= i < |a| && !(lo < i <= hi) ==> b[i] == a[i])
  }

  /** Copy cell by cell from the top down. */
  method ShiftUp(mtfa: array<int>, lo: nat, hi: nat)
    requires lo <= hi < mtfa.Length
    modifies mtfa
    ensures ShiftedUp(old(mtfa[..]), mtfa[..], lo, hi)
  {
    var pp := hi;
    while pp > lo
      invariant lo <= pp <= hi
      invariant forall i {:trigger mtfa[i]} :: pp < i <= hi ==> mtfa[i] == old(mtfa[i - 1])
      invariant forall i {:trigger mtfa[i]} :: 0 <= i < mtfa.Length && !(pp < i <= hi) ==> mtfa[i] == old(mtfa[i])
    {
      mtfa[pp] := mtfa[pp - 1];
      pp := pp - 1;
    }
  }

  /** The same, four cells at a time while more than three remain. */
  method ShiftUpByFour(mtfa: array<int>, pp: nat, n: nat)
    requires pp + n < mtfa.Length
    modifies mtfa
    ensures ShiftedUp(old(mtfa[..]), mtfa[..], pp, pp + n)
  {
    var nn := n;
    while nn > 3
      invariant 0 <= nn <= n
      invariant forall i {:trigger mtfa[i]} :: pp + nn < i <= pp + n ==> mtfa[i] == old(mtfa[i - 1])
      invariant forall i {:trigger mtfa[i]} :: 0 <= i < mtfa.Length && !(pp + nn < i <= pp + n) ==>
          mtfa[i] == old(mtfa[i])
    {
      var z := pp + nn;
      mtfa[z] := mtfa[z - 1];
      mtfa[z - 1] := mtfa[z - 2];
      mtfa[z - 2] := mtfa[z - 3];
      mtfa[z - 3] := mtfa[z - 4];
      nn := nn - 4;
    }
    while nn > 0
      invariant 0 <= nn <= n
      invariant forall i {:trigger mtfa[i]} :: pp + nn < i <= pp + n ==> mtfa[i] == old(mtfa[i - 1])
      invariant forall i {:trigger mtfa[i]} :: 0 <= i < mtfa.Length && !(pp + nn < i <= pp + n) ==>
          mtfa[i] == old(mtfa[i])
    {
      mtfa[pp + nn] := mtfa[pp + nn - 1];
      nn := nn - 1;
    }
  }

  lemma RowUntouched(a: seq<int>, at: int, row: seq<int>, from: nat, j: int, v: int)
    requires RowIs(a, at, row, from) && 0 <= j < MTFA_SIZE && (j < at + from || at + 16 <= j)
    ensures RowIs(a[j := v], at, row, from)
  {
  }

  lemma RowShifted(a: seq<int>, b: seq<int>, at: int, row: seq<int>, lo: int, hi: int)
    requires RowIs(a, at, row, 0) && ShiftedUp(a, b, lo, hi) && (at + 16 <= lo || hi < at)
    ensures RowIs(b, at, row, 0)
  {
  }

  /** A hit in the first list: shift its head and put the entry in front. */
  lemma FrontMoved(a: seq<int>, b: seq<int>, base: seq<int>, rows: Rows, n: nat)
    requires Represents(a, base, rows) && n < 16 && ShiftedUp(a, b, base[0], base[0] + n)
    ensures Represents(b[base[0] := rows[0][n]], base, MoveRows(rows, 0, n))
  {
    var c, rows2 := b[base[0] := rows[0][n]], MoveRows(rows, 0, n);
    forall s {:trigger rows2[0][s]} | 0 <= s < 16
      ensures c[base[0] + s] == rows2[0][s]
    {
      MovedRowAt(rows, 0, n, 0, s);
      assert s > 0 ==> b[base[0] + s] == if s <= n then a[base[0] + s - 1] else a[base[0] + s];
      assert s > 0 ==> rows[0][s - 1] == a[base[0] + (s - 1)];
      assert rows[0][s] == a[base[0] + s];
    }
    forall k | 1 <= k < 16
      ensures RowIs(c, base[k], rows2[k], 0)
    {
      LayoutOrder(base, 0, k);
      assert rows2[k] == rows[k];
      RowShifted(a, b, base[k], rows[k], base[0], base[0] + n);
      RowUntouched(b, base[k], rows[k], 0, base[0], rows[0][n]);
    }
  }

  /** Where list `k` lies after a hit in list `lno`: every list before it moves down one cell. */
  function After(base: seq<int>, lno: nat, k: nat): int
    requires k < |base|
  {
    if k < lno then base[k] - 1 else base[k]
  }

  /**
   * Half way through the carry: lists above `m` are final, list `m` lacks its first entry, lists below are untouched.
   */
  ghost predicate Carrying(a: seq<int>, base: seq<int>, base0: seq<int>, rows: Rows, lno: nat, off: nat, m: nat) {
    && Layout(base0) && base0[0] >= 1 && |base| == 16 && Square(rows) && m <= lno < 16 && off < 16
    && base[m] == After(base0, lno, m) + 1
    && RowIs(a, After(base0, lno, m), MovedRow(rows, lno, off, m), 1)
    && (forall k :: 0 <= k < m ==> base[k] == base0[k] && RowIs(a, base0[k], rows[k], 0))
    && (forall k :: m < k < 16 ==>
      base[k] == After(base0, lno, k) && RowIs(a, After(base0, lno, k), MovedRow(rows, lno, off, k), 0))
  }

  /** The hit list closes up over the entry taken out. */
  lemma HitClosed(a: seq<int>, b: seq<int>, at: int, rows: Rows, lno: nat, off: nat)
    requires Square(rows) && lno < 16 && off < 16 && RowIs(a, at, rows[lno], 0) && ShiftedUp(a, b, at, at + off)
    ensures RowIs(b, at, MovedRow(rows, lno, off, lno), 1)
  {
    var row := MovedRow(rows, lno, off, lno);
    forall s {:trigger row[s]} | 1 <= s < 16
      ensures b[at + s] == row[s]
    {
      MovedRowAt(rows, lno, off, lno, s);
      assert b[at + s] == if s <= off then a[at + s - 1] else a[at + s];
      assert rows[lno][s - 1] == a[at + (s - 1)];
      assert rows[lno][s] == a[at + s];
    }
  }

  lemma CarryStart(a: seq<int>, b: seq<int>, base: seq<int>, rows: Rows, lno: nat, off: nat)
    requires Represents(a, base, rows) && base[0] >= 1 && lno < 16 && off < 16
    requires ShiftedUp(a, b, base[lno], base[lno] + off)
    ensures Carrying(b, base[lno := base[lno] + 1], base, rows, lno, off, lno)
  {
    HitClosed(a, b, base[lno], rows, lno, off);
    forall k | 0 <= k < 16 && k != lno
      ensures RowIs(b, base[k], rows[k], 0)
    {
      if k < lno {
        LayoutOrder(base, k, lno);
      } else {
        LayoutOrder(base, lno, k);
      }
      RowShifted(a, b, base[k], rows[k], base[lno], base[lno] + off);
    }
    assert forall k :: lno < k < 16 ==> MovedRow(rows, lno, off, k) == rows[k];
  }

  /** Before any carry, all but the last entry of list m already sit where they belong in its new place. */
  lemma MadeRoom(a: seq<int>, at: int, rows: Rows, lno: nat, off: nat, m: nat)
    requires Square(rows) && m < lno < 16 && off < 16 && at >= 1 && RowIs(a, at, rows[m], 0)
    ensures RowIs(a, at - 1, MovedRow(rows, lno, off, m), 1)
  {
    var row := MovedRow(rows, lno, off, m);
    forall s {:trigger row[s]} | 1 <= s < 16
      ensures a[at - 1 + s] == row[s]
    {
      MovedRowAt(rows, lno, off, m, s);
      assert rows[m][s - 1] == a[at + (s - 1)];
    }
  }

  lemma FirstFilled(a: seq<int>, at: int, row: seq<int>, v: int)
    requires RowIs(a, at, row, 1) && v == row[0]
    ensures RowIs(a[at := v], at, row, 0)
  {
  }

  lemma RowEntry(a: seq<int>, at: int, row: seq<int>, from: nat, s: nat)
    requires RowIs(a, at, row, from) && from <= s < 16
    ensures |a| == MTFA_SIZE && 0 <= at && at + 16 <= MTFA_SIZE && |row| == 16 && a[at + s] == row[s]
  {
  }

  /** One trip of the carry loop: the last entry of list m-1 becomes the first of list m. */
  lemma CarryStep(a: seq<int>, base: seq<int>, base0: seq<int>, rows: Rows, lno: nat, off: nat, m: nat)
    requires Carrying(a, base, base0, rows, lno, off, m) && m > 0
    ensures var to := base[m] - 1; var from := base[m - 1] + 15;
            && 0 <= to < MTFA_SIZE && 0 <= from < MTFA_SIZE && |a| == MTFA_SIZE
            && Carrying(a[to := a[from]], base[m := to], base0, rows, lno, off, m - 1)
  {
    hide MovedRow, RowIs;
    var to, from := base[m] - 1, base[m - 1] + 15;
    LayoutInside(base0, m);
    LayoutInside(base0, m - 1);
    LayoutOrder(base0, m - 1, m);
    if m > 1 {
      LayoutOrder(base0, 0, m - 1);
    }
    RowEntry(a, base0[m - 1], rows[m - 1], 0, 15);
    MovedRowAt(rows, lno, off, m, 0);
    FirstFilled(a, to, MovedRow(rows, lno, off, m), a[from]);
    MadeRoom(a, base0[m - 1], rows, lno, off, m - 1);
    var a' := a[to := a[from]];
    if to == base0[m - 1] + 15 {
      assert a' == a;
    } else {
      RowUntouched(a, base0[m - 1] - 1, MovedRow(rows, lno, off, m - 1), 1, to, a[from]);
    }
    forall k | 0 <= k < m - 1
      ensures RowIs(a', base0[k], rows[k], 0)
    {
      LayoutOrder(base0, k, m - 1);
      RowUntouched(a, base0[k], rows[k], 0, to, a[from]);
    }
    forall k | m < k < 16
      ensures RowIs(a', After(base0, lno, k), MovedRow(rows, lno, off, k), 0)
    {
      LayoutOrder(base0, m, k);
      RowUntouched(a, After(base0, lno, k), MovedRow(rows, lno, off, k), 0, to, a[from]);
    }
  }

  lemma CarryEnd(a: seq<int>, base: seq<int>, base0: seq<int>, rows: Rows, lno: nat, off: nat)
    requires Carrying(a, base, base0, rows, lno, off, 0)
    ensures 1 <= base[0] <= MTFA_SIZE && |a| == MTFA_SIZE
    ensures Represents(a[base[0] - 1 := rows[lno][off]], base[0 := base[0] - 1], MoveRows(rows, lno, off))
  {
    hide MovedRow;
    var to := base[0] - 1;
    var a', base' := a[to := rows[lno][off]], base[0 := to];
    LayoutInside(base0, 0);
    MovedRowAt(rows, lno, off, 0, 0);
    FirstFilled(a, to, MovedRow(rows, lno, off, 0), rows[lno][off]);
    forall k | 0 < k < 16
      ensures RowIs(a', base'[k], MovedRow(rows, lno, off, k), 0)
    {
      LayoutOrder(base0, 0, k);
      RowUntouched(a, After(base0, lno, k), MovedRow(rows, lno, off, k), 0, to, rows[lno][off]);
    }
    assert forall k :: 0 <= k < 16 ==> base'[k] == After(base0, lno, k);
  }

  // ---- repacking to the top of the buffer ----

  const TOP := MTFA_SIZE - 256

  /** Cells 0..to-1 of a row are still to be read at `at`. */
  ghost predicate RowBelow(a: seq<int>, at: int, row: seq<int>, to: int) {
    && |a| == MTFA_SIZE && |row| == 16 && 0 <= at && at + 16 <= MTFA_SIZE && 0 <= to <= 16
    && forall s {:trigger row[s]} :: 0 <= s < to ==> a[at + s] == row[s]
  }

  /**
   * Rows above `ii` are repacked; row `ii` is repacked from column `to` on and unread below it; rows below are
   * unread.
   */
  ghost predicate Packing(a: seq<int>, base: seq<int>, base0: seq<int>, rows: Rows, ii: int, to: int) {
    && Layout(base0) && |base| == 16 && Square(rows) && 0 <= ii < 16 && 0 <= to <= 16
    && RowIs(a, TOP + 16 * ii, rows[ii], to) && RowBelow(a, base0[ii], rows[ii], to)
    && (forall k :: 0 <= k <= ii ==> base[k] == base0[k])
    && (forall k :: 0 <= k < ii ==> RowIs(a, base0[k], rows[k], 0))
    && (forall k :: ii < k < 16 ==> base[k] == TOP + 16 * k && RowIs(a, TOP + 16 * k, rows[k], 0))
  }

  lemma BelowTop(base: seq<int>, k: nat)
    requires Layout(base) && k < 16
    ensures base[k] <= TOP + 16 * k
  {
    if k < 15 {
      LayoutOrder(base, k, 15);
    }
  }

  /** Copying one cell upward never destroys a cell still to be read. */
  lemma PackStep(a: seq<int>, base: seq<int>, base0: seq<int>, rows: Rows, ii: nat, jj: nat)
    requires Packing(a, base, base0, rows, ii, jj + 1) && jj < 16
    ensures Packing(a[TOP + 16 * ii + jj := a[base0[ii] + jj]], base, base0, rows, ii, jj)
  {
    var kk, v := TOP + 16 * ii + jj, a[base0[ii] + jj];
    var a' := a[kk := v];
    BelowTop(base0, ii);
    assert v == rows[ii][jj];
    forall k | 0 <= k < ii
      ensures RowIs(a', base0[k], rows[k], 0)
    {
      LayoutOrder(base0, k, ii);
      RowUntouched(a, base0[k], rows[k], 0, kk, v);
    }
    forall k | ii < k < 16
      ensures RowIs(a', TOP + 16 * k, rows[k], 0)
    {
      RowUntouched(a, TOP + 16 * k, rows[k], 0, kk, v);
    }
  }

  lemma PackNextRow(a: seq<int>, base: seq<int>, base0: seq<int>, rows: Rows, ii: nat)
    requires Packing(a, base, base0, rows, ii, 0) && ii > 0
    ensures Packing(a, base[ii := TOP + 16 * ii], base0, rows, ii - 1, 16)
  {
    assert RowIs(a, base0[ii - 1], rows[ii - 1], 0);
  }

  method PackRow(mtfa: array<int>, mtfbase: array<int>, ii: nat, ghost base0: seq<int>, ghost rows: Rows)
    requires mtfa != mtfbase && Packing(mtfa[..], mtfbase[..], base0, rows, ii, 16)
    modifies mtfa
    ensures Packing(mtfa[..], mtfbase[..], base0, rows, ii, 0)
  {
    var jj := 15;
    while jj >= 0
      invariant -1 <= jj <= 15 && Packing(mtfa[..], mtfbase[..], base0, rows, ii, jj + 1)
    {
      ghost var a := mtfa[..];
      PackStep(a, mtfbase[..], base0, rows, ii, jj);
      var kk := TOP + 16 * ii + jj;
      mtfa[kk] := mtfa[mtfbase[ii] + jj];
      assert mtfa[..] == a[kk := a[base0[ii] + jj]];
      jj := jj - 1;
    }
  }

  lemma PackingStarts(a: seq<int>, base: seq<int>, rows: Rows)
    requires Represents(a, base, rows)
    ensures Packing(a, base, base, rows, 15, 16)
  {
  }

  lemma PackingEnds(a: seq<int>, base: seq<int>, base0: seq<int>, rows: Rows)
    requires Packing(a, base, base0, rows, 0, 0)
    ensures Represents(a, base[0 := TOP], rows)
  {
  }

  method Repack(mtfa: array<int>, mtfbase: array<int>, ghost rows: Rows)
    requires mtfa != mtfbase && Represents(mtfa[..], mtfbase[..], rows)
    modifies mtfa, mtfbase
    ensures Represents(mtfa[..], mtfbase[..], rows) && mtfbase[0] == TOP
  {
    hide Represents, Packing;
    ghost var base0 := mtfbase[..];
    PackingStarts(mtfa[..], base0, rows);
    assert mtfbase.Length == 16 && mtfa.Length == MTFA_SIZE by {
      Sizes(mtfa[..], mtfbase[..], rows);
    }
    var ii := 15;
    while ii > 0
      invariant 0 <= ii <= 15 && Packing(mtfa[..], mtfbase[..], base0, rows, ii, 16)
    {
      PackRow(mtfa, mtfbase, ii, base0, rows);
      ghost var base := mtfbase[..];
      PackNextRow(mtfa[..], base, base0, rows, ii);
      mtfbase[ii] := TOP + 16 * ii;
      assert mtfbase[..] == base[ii := TOP + 16 * ii];
      ii := ii - 1;
    }
    PackRow(mtfa, mtfbase, 0, base0, rows);
    ghost var base := mtfbase[..];
    PackingEnds(mtfa[..], base, base0, rows);
    mtfbase[0] := TOP;
    assert mtfbase[..] == base[0 := TOP];
  }

  lemma Sizes(a: seq<int>, base: seq<int>, rows: Rows)
    requires Represents(a, base, rows)
    ensures |a| == MTFA_SIZE && |base| == 16 && Square(rows)
    ensures forall k :: 0 <= k < 16 ==> 0 <= base[k] && base[k] + 16 <= MTFA_SIZE
    ensures forall k, s :: 0 <= k < 16 && 0 <= s < 16 ==> a[base[k] + s] == rows[k][s]
  {
    assert RowIs(a, base[0], rows[0], 0);
    forall k | 0 <= k < 16
      ensures 0 <= base[k] && base[k] + 16 <= MTFA_SIZE
    {
      LayoutInside(base, k);
    }
    forall k, s | 0 <= k < 16 && 0 <= s < 16
      ensures a[base[k] + s] == rows[k][s]
    {
      assert RowIs(a, base[k], rows[k], 0);
    }
  }

  // ---- the structure as an object ----

  lemma StartRepresents(a: seq<int>, base: seq<int>, rows: Rows)
    requires |a| == MTFA_SIZE && |base| == 16 && Square(rows)
    requires forall i :: 0 <= i < MTFA_SIZE ==> a[i] == i - TOP
    requires forall k :: 0 <= k < 16 ==> base[k] == TOP + 16 * k && forall s :: 0 <= s < 16 ==> rows[k][s] == 16 * k + s
    ensures Represents(a, base, rows) && Flatten(rows) == Range(256)
  {
  }

  class MtfList {
    const mtfa: array<int>
    const mtfbase: array<int>
    ghost var rows: Rows

    ghost predicate Valid()
      reads this, mtfa, mtfbase
    {
      mtfa != mtfbase && Represents(mtfa[..], mtfbase[..], rows) && mtfbase[..][0] >= 1
    }

    ghost function List(): (list: seq<int>)
      requires Valid()
      reads this, mtfa, mtfbase
      ensures |list| == 256
    {
      Flatten(rows)
    }

    /** MTF init in BZ2_decompress. */
    constructor ()
      ensures Valid() && List() == Range(256) && fresh(mtfa) && fresh(mtfbase)
    {
      mtfa := new int[MTFA_SIZE](i => i - TOP);
      mtfbase := new int[16](i => TOP + 16 * i);
      rows := seq(16, k => seq(16, s => 16 * k + s));
      new;
      hide Represents, Flatten;
      StartRepresents(mtfa[..], mtfbase[..], rows);
    }

    /** uc = MTF(nextSym - 1) for a position in the first list. */
    method MoveInFront(nn: nat) returns (uc: int)
      requires Valid() && nn < 16
      modifies this, mtfa
      ensures Valid() && uc == old(List())[nn] && List() == Move(old(List()), nn)
    {
      hide Represents, Flatten, Move;
      ghost var a, base := mtfa[..], mtfbase[..];
      Sizes(a, base, rows);
      FlatEntry(rows, 0, nn);
      MoveRowsIsMove(rows, 0, nn);
      var pp := mtfbase[0];
      uc := mtfa[pp + nn];
      assert uc == rows[0][nn];
      ShiftUpByFour(mtfa, pp, nn);
      ghost var b := mtfa[..];
      FrontMoved(a, b, base, rows, nn);
      mtfa[pp] := uc;
      assert mtfa[..] == b[base[0] := rows[0][nn]] && mtfbase[..] == base;
      rows := MoveRows(rows, 0, nn);
    }

    /** The general case: take the entry out of list `lno` and carry one entry over each list boundary below it. */
    method MoveAcross(lno: nat, off: nat) returns (uc: int)
      requires Valid() && lno < 16 && off < 16
      modifies this, mtfa, mtfbase
      ensures mtfa != mtfbase && Represents(mtfa[..], mtfbase[..], rows) && uc == old(rows)[lno][off]
      ensures rows == MoveRows(old(rows), lno, off)
    {
      hide Represents, Carrying;
      ghost var a, base, rows0 := mtfa[..], mtfbase[..], rows;
      Sizes(a, base, rows);
      var pp := mtfbase[lno] + off;
      uc := mtfa[pp];
      ShiftUp(mtfa, mtfbase[lno], pp);
      CarryStart(a, mtfa[..], base, rows, lno, off);
      mtfbase[lno] := mtfbase[lno] + 1;
      assert mtfbase[..] == base[lno := base[lno] + 1];
      Carry(lno, off, base);
      ghost var a', base' := mtfa[..], mtfbase[..];
      CarryEnd(a', base', base, rows0, lno, off);
      mtfbase[0] := mtfbase[0] - 1;
      mtfa[mtfbase[0]] := uc;
      assert mtfbase[..] == base'[0 := base'[0] - 1] && mtfa[..] == a'[base'[0] - 1 := rows0[lno][off]];
      rows := MoveRows(rows0, lno, off);
    }

    method Carry(lno: nat, ghost off: nat, ghost base0: seq<int>)
      requires mtfa != mtfbase && Carrying(mtfa[..], mtfbase[..], base0, rows, lno, off, lno)
      modifies mtfa, mtfbase
      ensures Carrying(mtfa[..], mtfbase[..], base0, rows, lno, off, 0)
    {
      hide Carrying;
      CarryingSizes(mtfa[..], mtfbase[..], base0, rows, lno, off, lno);
      var m := lno;
      while m > 0
        invariant 0 <= m <= lno && Carrying(mtfa[..], mtfbase[..], base0, rows, lno, off, m)
      {
        ghost var a, base := mtfa[..], mtfbase[..];
        CarryStep(a, base, base0, rows, lno, off, m);
        mtfbase[m] := mtfbase[m] - 1;
        mtfa[mtfbase[m]] := mtfa[mtfbase[m - 1] + MTFL_SIZE - 1];
        assert mtfbase[..] == base[m := base[m] - 1] && mtfa[..] == a[base[m] - 1 := a[base[m - 1] + 15]];
        m := m - 1;
      }
    }

    lemma CarryingSizes(a: seq<int>, base: seq<int>, base0: seq<int>, rows: Rows, lno: nat, off: nat, m: nat)
      requires Carrying(a, base, base0, rows, lno, off, m)
      ensures |base| == 16 && lno < 16 && |a| == MTFA_SIZE
    {
    }

    /** mtfa[mtfbase[0]]. */
    method Front() returns (uc: int)
      requires Valid()
      ensures uc == List()[0]
    {
      hide Represents, Flatten;
      Sizes(mtfa[..], mtfbase[..], rows);
      FlatEntry(rows, 0, 0);
      uc := mtfa[mtfbase[0]];
    }

    /** The general case, and the repack when the first list reaches the bottom of the buffer. */
    method TakeFar(lno: nat, off: nat) returns (uc: int)
      requires Valid() && lno < 16 && off < 16
      modifies this, mtfa, mtfbase
      ensures Valid() && uc == old(List())[16 * lno + off] && List() == Move(old(List()), 16 * lno + off)
    {
      hide Represents, Flatten, Move, MoveRows;
      ghost var rows0 := rows;
      Sizes(mtfa[..], mtfbase[..], rows);
      FlatEntry(rows, lno, off);
      MoveRowsIsMove(rows, lno, off);
      uc := MoveAcross(lno, off);
      Sizes(mtfa[..], mtfbase[..], rows);
      if mtfbase[0] == 0 {
        Repack(mtfa, mtfbase, rows);
      }
    }

    /** uc = MTF(nextSym - 1): whatever the position, the object behaves as the plain 256-entry list. */
    method Take(nn: nat) returns (uc: int)
      requires Valid() && nn < 256
      modifies this, mtfa, mtfbase
      ensures Valid() && uc == old(List())[nn] && List() == Move(old(List()), nn)
    {
      hide Represents, Flatten, Move;
      if nn < MTFL_SIZE {
        uc := MoveInFront(nn);
      } else {
        SplitIndex(nn);
        uc := TakeFar(nn / MTFL_SIZE, nn % MTFL_SIZE);
      }
    }

    lemma SplitIndex(nn: nat)
      requires nn < 256
      ensures nn / MTFL_SIZE < 16 && nn % MTFL_SIZE < 16 && 16 * (nn / MTFL_SIZE) + nn % MTFL_SIZE == nn
    {
    }
  }
}
