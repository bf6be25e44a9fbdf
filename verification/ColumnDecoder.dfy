/** The MTF loop of BZ2_decompress on its own storage: sliding lists, tt (or ll16), unzftab, es and N. */
module ColumnDecoder {
  import opened Base
  import opened CanonicalCode
  import opened InverseBwt
  import opened Radix
  import opened MoveToFront
  import opened MtfEncoder
  import opened SlidingMtf
  import opened BlockFormat
  import opened BlockReader
  import opened BlockRoundTrip
  import opened DecoderSound

  // ---- limit, base and perm against the machine's lookup ----

  datatype Found = Symbol(s: nat) | Longer | Corrupt

  /** The test inside GET_MTF_VAL, on the tables BZ2_hbCreateDecodeTables built for `row`. */
  method TryCode(t: DecodeTable, ghost row: seq<byte>, zn: nat, zvec: nat) returns (f: Found)
    requires row != [] && InRange(row) && TableFor(row, MaxLen(row), t) && t.minLen == MinLen(row)
    requires |t.perm| == MAX_ALPHA
    requires MinLen(row) <= zn <= 21 && (zn > MinLen(row) ==> zvec >= 2 * (LimitAt(row, zn - 1) + 1))
    requires forall n :: MaxLen(row) < n <= MAX_LEN ==> t.limit[n] == 0
    ensures f == if zn > 20 then Corrupt else if zvec > LimitAt(row, zn) then Longer
                 else match Lookup(row, zn, zvec) case Some(s) => Symbol(s) case None => Corrupt
    ensures f != Corrupt || zn > 20
  {
    hide MinLen, MaxLen, LimitAt, BaseAt, Lookup, InRange, LastToFirst, Occupied, Below;
    if zn > 20 {
      return Corrupt;
    }
    TableLimit(t, row, zn);
    if zvec > t.limit[zn] {
      return Longer;
    }
    LookupInRange(row, zn, zvec);
    TableSymbol(t, row, zn, zvec);
    var k := zvec - t.base[zn];
    if k < 0 || k >= MAX_ALPHA {
      return Corrupt;
    }
    f := Symbol(t.perm[k]);
  }

  lemma TableLimit(t: DecodeTable, row: seq<byte>, n: nat)
    requires TableFor(row, MaxLen(row), t) && t.minLen == MinLen(row) <= n <= MAX_LEN
    requires forall n :: MaxLen(row) < n <= MAX_LEN ==> t.limit[n] == 0
    ensures t.limit[n] == LimitAt(row, n)
  {
  }

  lemma TableSymbol(t: DecodeTable, row: seq<byte>, n: nat, zvec: nat)
    requires TableFor(row, MaxLen(row), t) && t.minLen == MinLen(row) <= n <= MaxLen(row)
    requires Below(row, n) <= zvec - BaseAt(row, n) < Below(row, n + 1) <= |row|
    ensures t.base[n] == BaseAt(row, n) && 0 <= t.perm[zvec - t.base[n]]
    ensures Lookup(row, n, zvec) == Some(t.perm[zvec - t.base[n]])
  {
    hide MinLen, MaxLen, LastToFirst, Occupied, Below;
    var k := zvec - BaseAt(row, n);
    BlockVectors.TVectorInverts(row);
    var i := TVector(row, |row|)[k];
    assert LastToFirst(row, i) == k;
    assert t.perm[LastToFirst(row, i)] == i;
  }

  // ---- the loop body ----

  /** Counts of the bytes of `l`. */
  ghost predicate Counts(u: seq<int>, l: seq<byte>) {
    |u| == 256 && forall c :: 0 <= c < 256 ==> u[c] == multiset(l)[c]
  }

  lemma {:induction false} CountRepeat(c: byte, n: nat, d: byte)
    ensures multiset(Repeat<byte>(c, n))[d] == if c == d then n else 0
  {
    if n > 0 {
      CountRepeat(c, n - 1, d);
      assert Repeat<byte>(c, n) == Repeat<byte>(c, n - 1) + [c];
    }
  }

  lemma CountsMore(u: seq<int>, l: seq<byte>, c: byte, n: nat)
    requires Counts(u, l)
    ensures Counts(u[c := u[c] + n], l + Repeat<byte>(c, n))
  {
    forall d | 0 <= d < 256
      ensures multiset(l + Repeat<byte>(c, n))[d] == multiset(l)[d] + if c == d then n else 0
    {
      CountRepeat(c, n, d);
    }
  }

  lemma UnrankedMore(used: UseMap, col: seq<int>, x: int, n: nat)
    requires 0 <= x < |Used(used, 256)|
    ensures Unranked(used, col + Repeat<int>(x, n)) == Unranked(used, col) + Repeat<byte>(Used(used, 256)[x], n)
  {
    hide Used;
  }

  class Builder {
    const mtf: SlidingMtf.MtfList
    const cells: array<int>          // tt, or ll16 in the small decoder
    const unzftab: array<int>
    const seqToUnseq: seq<int>
    const limit: nat                 // nblockMAX
    var nblock: nat
    var es: int
    var weight: nat                  // N
    ghost const used: UseMap
    ghost var col: seq<int>          // the column in dense numbering

    /** All objects this one is made of. */
    ghost function Repr(): set<object> {
      {this, mtf, mtf.mtfa, mtf.mtfbase, cells, unzftab}
    }

    ghost predicate Storage()
      reads this, mtf, mtf.mtfa, mtf.mtfbase, cells, unzftab
    {
      && mtf.Valid() && cells != unzftab && cells != mtf.mtfa && cells != mtf.mtfbase && unzftab != mtf.mtfa
        && unzftab != mtf.mtfbase
      && cells.Length >= limit && unzftab.Length == 256 && seqToUnseq == Used(used, 256)
      && nblock == |col| <= limit && cells[..nblock] == Unranked(used, col) && Counts(unzftab[..], Unranked(used, col))
    }

    /** The decoder state this storage stands for. */
    ghost function State(): MtfState
      requires mtf.Valid()
      reads this, mtf, mtf.mtfa, mtf.mtfbase
    {
      MtfState(mtf.List(), col, es, weight)
    }

    ghost predicate Valid()
      reads this, mtf, mtf.mtfa, mtf.mtfbase, cells, unzftab
    {
      Storage() && MtfOk(State(), |Used(used, 256)|, limit)
    }

    /** The start of the loop. */
    constructor (used: UseMap, limit: nat)
      requires Used(used, 256) != []
      ensures Valid() && State() == Idle(Range(256), []) && this.used == used && this.limit == limit
      ensures fresh(mtf) && fresh(mtf.mtfa) && fresh(mtf.mtfbase) && fresh(cells) && fresh(unzftab)
    {
      mtf := new SlidingMtf.MtfList();
      cells := new int[limit](_ => 0);
      unzftab := new int[256](_ => 0);
      var s := MakeMapsD(used);
      seqToUnseq := s;
      this.limit, nblock, es, weight := limit, 0, -1, 1;
      this.used, col := used, [];
      new;
      assert cells[..0] == [];
    }

    /** Write `n` copies of `uc`; false where the source reports a data error. */
    method WriteRun(uc: byte, n: nat) returns (ok: bool)
      requires nblock <= limit <= cells.Length
      modifies this`nblock, cells
      ensures ok == (nblock == old(nblock) + n) && ok == (old(nblock) + n <= limit)
      ensures ok ==> cells[..nblock] == old(cells[..nblock]) + Repeat<byte>(uc, n)
    {
      ghost var start, before := nblock, cells[..nblock];
      var left := n;
      ok := true;
      while left > 0
        invariant 0 <= left <= n && nblock == start + (n - left) <= limit && ok
        invariant cells[..nblock] == before + Repeat<byte>(uc, n - left)
      {
        if nblock >= limit {
          ok := false;
          return;
        }
        assert before + Repeat<byte>(uc, n - left) + [uc as int] == before + Repeat<byte>(uc, n - left + 1);
        cells[nblock] := uc;
        assert cells[..nblock + 1] == before + Repeat<byte>(uc, n - left) + [uc as int];
        nblock := nblock + 1;
        left := left - 1;
      }
    }

    lemma FrontInUse()
      requires Valid()
      ensures 0 <= mtf.List()[0] < |seqToUnseq| && seqToUnseq == Used(used, 256) && es + 1 >= 0
    {
      hide SlidingMtf.MtfList.Valid, SlidingMtf.MtfList.List, Used;
    }

    /** es++ and the copies of the front character. */
    method EndOfRun() returns (ok: bool)
      requires Valid()
      modifies this`nblock, this`es, this`weight, this`col, cells, unzftab
      ensures ok == EndRun(old(State()), limit).More?
      ensures ok ==> Valid() && State() == EndRun(old(State()), limit).state && weight == 1
    {
      hide Used, Unranked, SlidingMtf.MtfList.List, Counts;
      FrontInUse();
      if weight == 1 {
        return true;
      }
      ghost var l := Unranked(used, col);
      es := es + 1;
      var front := mtf.Front();
      var uc: byte := seqToUnseq[front];
      UnrankedMore(used, col, front, es);
      CountsMore(unzftab[..], l, uc, es);
      ghost var u := unzftab[..];
      unzftab[uc] := unzftab[uc] + es;
      assert unzftab[..] == u[uc as int := u[uc] + es];
      ok := WriteRun(uc, es);
      if ok {
        col := col + Repeat<int>(front, es);
        es, weight := -1, 1;
      }
    }

    /** Enter one character: unzftab, tt and nblock. */
    method PutChar(r: nat)
      requires Storage() && nblock < limit && r < |Used(used, 256)|
      modifies this`nblock, this`col, cells, unzftab
      ensures Storage() && col == old(col) + [r]
    {
      hide Used, Unranked, Counts;
      ghost var l, u, was := Unranked(used, col), unzftab[..], cells[..nblock];
      var uc: byte := seqToUnseq[r];
      OneMore(l, r, uc);
      unzftab[uc] := unzftab[uc] + 1;
      assert unzftab[..] == u[uc as int := u[uc] + 1];
      cells[nblock] := uc;
      assert cells[..nblock + 1] == was + [uc as int];
      nblock := nblock + 1;
      col := col + [r];
    }

    lemma OneMore(l: seq<byte>, r: nat, uc: byte)
      requires unzftab.Length == 256 && Counts(unzftab[..], l) && l == Unranked(used, col) && r < |Used(used, 256)|
      requires uc == Used(used, 256)[r]
      ensures Unranked(used, col + [r]) == l + [uc] && Counts(unzftab[..][uc := unzftab[uc] + 1], l + [uc])
    {
      hide Used, Unranked, Counts;
      UnrankedMore(used, col, r, 1);
      assert Repeat<int>(r, 1) == [r] && Repeat<byte>(uc, 1) == [uc];
      CountsMore(unzftab[..], l, uc, 1);
    }

    /** uc = MTF(sym - 1), entered into the column. */
    method TakeChar(sym: nat) returns (ok: bool)
      requires Valid() && weight == 1 && es == -1 && 2 <= sym <= |Used(used, 256)|
      modifies this`nblock, this`col, mtf, mtf.mtfa, mtf.mtfbase, cells, unzftab
      ensures ok == (|old(col)| < limit)
      ensures ok ==> Valid() && State() == Idle(Move(old(mtf.List()), sym - 1), old(col) + [old(mtf.List())[sym - 1]])
    {
      hide Used, Unranked, Counts, SlidingMtf.MtfList.List, SlidingMtf.MtfList.Valid;
      if nblock >= limit {
        return false;
      }
      MoveKeepsFront(mtf.List(), sym - 1, |Used(used, 256)|);
      var r := mtf.Take(sym - 1);
      PutChar(r);
      ok := true;
    }

    /** One symbol, exactly as the abstract decoder takes it. */
    method TakeSymbol(sym: nat) returns (r: Outcome)
      requires Valid() && sym <= |Used(used, 256)| + 1
      modifies this, mtf, mtf.mtfa, mtf.mtfbase, cells, unzftab
      ensures match Accept(old(State()), sym, |Used(used, 256)| + 1, limit)
        case More(t) => r == Continue && Valid() && State() == t
        case Finished(column) => r == EndOfBlock && Storage() && col == column
        case Bad => r == BadData
    {
      hide Used, Unranked, SlidingMtf.MtfList.List, Counts;
      ghost var s, n := State(), |Used(used, 256)|;
      AcceptOk(s, sym, n, limit);
      if sym == RUNA || sym == RUNB {
        if weight >= WEIGHT_LIMIT {
          return BadData;
        }
        es := if sym == RUNA then es + weight else es + 2 * weight;
        weight := weight * 2;
        return Continue;
      }
      var ok := EndOfRun();
      if !ok {
        return BadData;
      }
      EndRunIdle(s, n);
      if sym == |seqToUnseq| + 1 {
        return EndOfBlock;
      }
      ok := TakeChar(sym);
      r := if ok then Continue else BadData;
    }

    lemma ColumnSize()
      requires Storage()
      ensures nblock == |col|
    {
    }

    lemma StateSize()
      requires Valid()
      ensures mtf.Valid() && |State().list| == 256 && |Used(used, 256)| <= 256
    {
      hide Used;
    }

    lemma EndRunIdle(s: MtfState, n: nat)
      requires MtfOk(s, n, limit) && EndRun(s, limit).More?
      ensures EndRun(s, limit).state.es == -1
    {
    }
  }

  datatype Outcome = Continue | EndOfBlock | BadData
}
