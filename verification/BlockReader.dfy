/** BZ2_decompress as the resumable machine its labels make it: what each GET_BITS asks for and what follows it. */
module BlockReader {
  import opened Base
  import opened BitString
  import opened Radix
  import opened InverseBwt
  import opened MoveToFront
  import opened MtfEncoder
  import opened CanonicalCode
  import opened BlockFormat

  // ---- one code table, as limit, base and perm present it ----

  function MinLen(row: seq<byte>): nat {
    if row == [] then 32
    else
      var m := MinLen(row[..|row| - 1]);
      if row[|row| - 1] < m then row[|row| - 1] else m
  }

  function MaxLen(row: seq<byte>): nat {
    if row == [] then 0
    else
      var m := MaxLen(row[..|row| - 1]);
      if row[|row| - 1] > m then row[|row| - 1] else m
  }

  function LimitAt(row: seq<byte>, n: nat): int {
    if MinLen(row) <= n <= MaxLen(row) then Occupied(row, n) - 1 else 0
  }

  function BaseAt(row: seq<byte>, n: nat): int {
    if MinLen(row) <= n <= MaxLen(row) then First(row, n) - Below(row, n) else Below(row, n)
  }

  /** The symbol of an n-bit code that passed the limit test. */
  function Lookup(row: seq<byte>, n: nat, zvec: nat): Option<nat> {
    var k := zvec - BaseAt(row, n);
    if 0 <= k < |row| then
      var s := TVector(row, |row|)[k];
      if s >= 0 then Some(s) else None
    else None
  }

  // ---- the machine ----

  datatype Header = Header(level: nat, crc: nat, randomised: bool, origPtr: nat)

  type MtfList = s: MtfState | |s.list| == 256 witness Idle(Range(256), [])

  datatype Body = Body(hd: Header, used: UseMap, sel: seq<nat>, lens: seq<seq<byte>>)

  datatype Phase =
    | Magic(i: nat)
    | Level
    | BlkHdr(level: nat, i: nat)
    | BlkCrc(level: nat, i: nat, crc: nat)
    | RandBit(level: nat, crc: nat)
    | OrigPtr(hd: Header, i: nat)
    | Mapping1(hd: Header, groups: seq<bool>)
    | Mapping2(hd: Header, groups: seq<bool>, map_: seq<bool>)
    | Selector1(hd: Header, used: UseMap)
    | Selector2(hd: Header, used: UseMap, nGroups: nat)
    | Selector3(hd: Header, used: UseMap, nGroups: nat, nSelectors: nat, mtf: seq<nat>, j: nat)
    | Coding1(body: Body, nGroups: nat)
    | Coding2(body: Body, nGroups: nat, row: seq<byte>, curr: byte)
    | Coding3(body: Body, nGroups: nat, row: seq<byte>, curr: byte)
    | Mtf1(body: Body, count: nat, row: seq<byte>, mtfs: MtfList)
    | Mtf2(body: Body, count: nat, row: seq<byte>, mtfs: MtfList, zn: nat, zvec: nat)
    | Output(hd: Header, column: seq<byte>)
    | EndHdr(i: nat)
    | CombCrc(i: nat, crc: nat)
    | End(crc: nat)
    | DataError
    | MagicError

  /** How many bits the GET_BITS at this point asks for; none where BZ2_decompress returns. */
  function Need(p: Phase): nat {
    match p
    case Magic(_) => 8
    case Level => 8
    case BlkHdr(_, _) => 8
    case BlkCrc(_, _, _) => 8
    case RandBit(_, _) => 1
    case OrigPtr(_, _) => 8
    case Mapping1(_, _) => 1
    case Mapping2(_, _, _) => 1
    case Selector1(_, _) => 3
    case Selector2(_, _, _) => 15
    case Selector3(_, _, _, _, _, _) => 1
    case Coding1(_, _) => 5
    case Coding2(_, _, _, _) => 1
    case Coding3(_, _, _, _) => 1
    case Mtf1(_, _, row, _) => MinLen(row)
    case Mtf2(_, _, _, _, _, _) => 1
    case EndHdr(_) => 8
    case CombCrc(_, _) => 8
    case _ => 0
  }

  /** Enter the next sixteen bytes that have a map, or go on to the selectors. */
  function NextGroup(hd: Header, groups: seq<bool>, map_: seq<bool>): Phase
    decreases 256 - |map_|
  {
    if |map_| >= 256 then
      var used := map_[..256];
      if Used(used, 256) == [] then DataError else Selector1(hd, used)
    else if |map_| % 16 == 0 && |map_| / 16 < |groups| && !groups[|map_| / 16] then
      NextGroup(hd, groups, map_ + seq(16, _ => false))
    else Mapping2(hd, groups, map_)
  }

  /** Undo the move-to-front of the selectors. */
  function Selectors(pos: seq<int>, m: seq<nat>): (sel: seq<nat>)
    decreases |m|
  {
    if m == [] || m[0] >= |pos| || pos[m[0]] < 0 then []
    else [pos[m[0]]] + Selectors(Move(pos, m[0]), m[1..])
  }

  function NextSelector(hd: Header, used: UseMap, nGroups: nat, nSelectors: nat, m: seq<nat>): Phase {
    if |m| < nSelectors then Selector3(hd, used, nGroups, nSelectors, m, 0)
    else Coding1(Body(hd, used, Selectors(Range(nGroups), m), []), nGroups)
  }

  /** The range check in front of each code-length bit. */
  function CheckLength(b: Body, nGroups: nat, row: seq<byte>, curr: int): Phase {
    if 1 <= curr <= 20 then Coding2(b, nGroups, row, curr) else DataError
  }

  function NextLength(b: Body, nGroups: nat, row: seq<byte>, curr: byte): Phase {
    if |row| < AlphaSize(b.used) then CheckLength(b, nGroups, row, curr)
    else
      var b' := b.(lens := b.lens + [row]);
      if |b'.lens| < nGroups then Coding1(b', nGroups) else NextSymbol(b', 0, Idle(Range(256), []))
  }

  /** GET_MTF_VAL: every fiftieth symbol starts a new group. */
  function NextSymbol(b: Body, count: nat, s: MtfList): Phase {
    var g := count / GROUP_SIZE;
    if g < |b.sel| && b.sel[g] < |b.lens| then Mtf1(b, count, b.lens[b.sel[g]], s) else DataError
  }

  function CheckCode(b: Body, count: nat, row: seq<byte>, s: MtfList, zn: nat, zvec: nat): Phase {
    if zn > 20 then DataError
    else if zvec <= LimitAt(row, zn) then
      match Lookup(row, zn, zvec)
      case None => DataError
      case Some(sym) => TakeSymbol(b, count, s, sym)
    else Mtf2(b, count, row, s, zn + 1, zvec)
  }

  function TakeSymbol(b: Body, count: nat, s: MtfList, sym: nat): Phase {
    match Accept(s, sym, AlphaSize(b.used) - 1, 100000 * b.hd.level)
    case More(t) => NextSymbol(b, count + 1, t)
    case Bad => DataError
    case Finished(column) => if b.hd.origPtr < |column| then Output(b.hd, Unranked(b.used, column)) else DataError
  }

  /** seqToUnseq over the decoded positions. */
  function Unranked(used: UseMap, col: seq<int>): (l: seq<byte>)
    ensures |l| == |col|
  {
    var u := Used(used, 256);
    seq(|col|, i requires 0 <= i < |col| => if 0 <= col[i] < |u| then u[col[i]] else 0)
  }

  /** What BZ2_decompress does with the bits it asked for, up to its next request. */
  function Step(p: Phase, v: nat): Phase {
    match p
    case Magic(i) => if i >= 3 || v != MAGIC[i] then MagicError else if i == 2 then Level else Magic(i + 1)
    case Level => if 0x31 <= v <= 0x39 then BlkHdr(v - 0x30, 0) else MagicError
    case BlkHdr(level, i) =>
      if i == 0 && v == END_MAGIC[0] then EndHdr(1)
      else if i >= 6 || v != BLOCK_MAGIC[i] then DataError
      else if i == 5 then BlkCrc(level, 0, 0)
      else BlkHdr(level, i + 1)
    case BlkCrc(level, i, crc) => if i >= 3 then RandBit(level, crc * 256 + v) else BlkCrc(level, i + 1, crc * 256 + v)
    case RandBit(level, crc) => OrigPtr(Header(level, crc, v == 1, 0), 0)
    case OrigPtr(hd, i) =>
      var hd' := hd.(origPtr := hd.origPtr * 256 + v);
      if i < 2 then OrigPtr(hd', i + 1)
      else if hd'.origPtr > 10 + 100000 * hd.level then DataError
      else Mapping1(hd', [])
    case Mapping1(hd, groups) =>
      if |groups| < 15 then Mapping1(hd, groups + [v == 1]) else NextGroup(hd, groups + [v == 1], [])
    case Mapping2(hd, groups, map_) => NextGroup(hd, groups, map_ + [v == 1])
    case Selector1(hd, used) => if 2 <= v <= 6 then Selector2(hd, used, v) else DataError
    case Selector2(hd, used, nGroups) => if v < 1 then DataError else NextSelector(hd, used, nGroups, v, [])
    case Selector3(hd, used, nGroups, nSelectors, m, j) =>
      if v == 0 then NextSelector(hd, used, nGroups, nSelectors, m + [j])
      else if j + 1 >= nGroups then DataError
      else Selector3(hd, used, nGroups, nSelectors, m, j + 1)
    case Coding1(b, nGroups) => CheckLength(b, nGroups, [], v)
    case Coding2(b, nGroups, row, curr) =>
      if v == 0 then NextLength(b, nGroups, row + [curr], curr) else Coding3(b, nGroups, row, curr)
    case Coding3(b, nGroups, row, curr) =>
      CheckLength(b, nGroups, row, if v == 0 then curr as int + 1 else curr as int - 1)
    case Mtf1(b, count, row, s) => CheckCode(b, count, row, s, MinLen(row), v)
    case Mtf2(b, count, row, s, zn, zvec) => CheckCode(b, count, row, s, zn, 2 * zvec + v)
    case EndHdr(i) => if i >= 6 || v != END_MAGIC[i] then DataError else if i == 5 then CombCrc(0, 0) else EndHdr(i + 1)
    case CombCrc(i, crc) => if i >= 3 then End(crc * 256 + v) else CombCrc(i + 1, crc * 256 + v)
    case _ => p
  }

  /** What the fields in front of the symbols must be; a value that is not is refused at once. */
  predicate FieldOk(p: Phase, v: nat) {
    match p
    case Magic(i) => v == (if i == 0 then 0x42 else if i == 1 then 0x5a else 0x68)
    case Level => 0x31 <= v <= 0x39
    case BlkHdr(_, i) =>
      if i == 0 then v == 0x31 || v == 0x17
      else
        v == (if i == 1 then 0x41 else if i == 2 then 0x59 else if i == 3 then 0x26 else if i == 4 then 0x53
              else 0x59)
    case EndHdr(i) =>
      v == if i == 1 then 0x72 else if i == 2 then 0x45 else if i == 3 then 0x38 else if i == 4 then 0x50 else 0x90
    case OrigPtr(hd, i) => i == 2 ==> hd.origPtr * 256 + v <= 10 + 100000 * hd.level
    case Selector1(_, _) => 2 <= v <= 6
    case Selector2(_, _, _) => 1 <= v
    case Selector3(_, _, nGroups, _, _, j) => v == 0 || j < nGroups - 1
    case Coding1(_, _) => 1 <= v <= 20
    case Coding3(_, _, _, curr) => if v == 0 then curr < 20 else 1 < curr
    case _ => true
  }

  /** Where these fields are refused, and only there, the machine reports an error. */
  lemma FieldsChecked(p: Phase, v: nat)
    requires match p
      case Magic(i) => i < 3
      case BlkHdr(_, i) => i < 6
      case EndHdr(i) => 1 <= i < 6
      case OrigPtr(_, i) => i <= 2
      case Coding3(_, _, _, curr) => 1 <= curr <= 20
      case Selector3(_, _, nGroups, nSelectors, m, _) => |m| + 1 < nSelectors
      case _ => p.Level? || p.Selector1? || p.Selector2? || p.Coding1?
    ensures FieldOk(p, v) <==> !Step(p, v).DataError? && !Step(p, v).MagicError?
  {
    hide Selectors, Used, NextGroup;
  }

  /** Take requests while there are bits to answer them; returns where the machine waits and the bits left. */
  function Run(p: Phase, b: Bits): (r: (Phase, Bits))
    ensures |r.1| < |b| || r == (p, b)
    decreases |b|
  {
    var n := Need(p);
    if n == 0 || |b| < n then (p, b) else Run(Step(p, ToNat(b[..n])), b[n..])
  }

  /** Suspending for input is invisible: cutting the bits anywhere gives the same run. */
  lemma {:induction false} RunResumes(p: Phase, a: Bits, b: Bits)
    ensures Run(p, a + b) == Run(Run(p, a).0, Run(p, a).1 + b)
    decreases |a|
  {
    hide Step, Need;
    var n := Need(p);
    if n != 0 && |a| >= n {
      assert (a + b)[..n] == a[..n] && (a + b)[n..] == a[n..] + b;
      RunResumes(Step(p, ToNat(a[..n])), a[n..], b);
    }
  }

  /** From `p` the machine takes exactly the bits `b` and then stands at `q`. */
  ghost predicate Reads(p: Phase, b: Bits, q: Phase)
    decreases |b|
  {
    if b == [] then p == q
    else 0 < Need(p) <= |b| && Reads(Step(p, ToNat(b[..Need(p)])), b[Need(p)..], q)
  }

  lemma {:induction false} ReadsConcat(p: Phase, a: Bits, q: Phase, b: Bits, r: Phase)
    requires Reads(p, a, q) && Reads(q, b, r)
    ensures Reads(p, a + b, r)
    decreases |a|
  {
    hide Step, Need;
    if a == [] {
      assert a + b == b;
    } else {
      var n := Need(p);
      assert (a + b)[..n] == a[..n] && (a + b)[n..] == a[n..] + b;
      ReadsConcat(Step(p, ToNat(a[..n])), a[n..], q, b, r);
    }
  }

  lemma {:induction false} ReadsRun(p: Phase, a: Bits, q: Phase, rest: Bits)
    requires Reads(p, a, q)
    ensures Run(p, a + rest) == Run(q, rest)
    decreases |a|
  {
    hide Step, Need;
    if a == [] {
      assert a + rest == rest;
    } else {
      var n := Need(p);
      assert (a + rest)[..n] == a[..n] && (a + rest)[n..] == a[n..] + rest;
      ReadsRun(Step(p, ToNat(a[..n])), a[n..], q, rest);
    }
  }

  lemma ReadNothing(p: Phase)
    ensures Reads(p, [], p)
  {
  }

  lemma ReadField(p: Phase, v: nat, n: nat)
    requires Need(p) == n > 0 && v < Pow2(n)
    ensures Reads(p, ToBits(v, n), Step(p, v))
  {
    hide Step, Need;
    BitsRoundTrip(v, n);
    assert ToBits(v, n)[..n] == ToBits(v, n) && ToBits(v, n)[n..] == [];
  }

  lemma ReadBit(p: Phase, x: bool)
    requires Need(p) == 1
    ensures Reads(p, [x], Step(p, Bit(x)))
  {
    hide Step, Need, ToNat;
    assert [x][..1] == [x] && [x][1..] == [];
    OneBit(x);
    ReadNothing(Step(p, Bit(x)));
  }

  lemma OneBit(x: bool)
    ensures ToNat([x]) == Bit(x)
  {
    ToNatPush([], x);
    assert [] + [x] == [x];
    ToNatEmpty();
  }

  lemma RunUnfolds(p: Phase, b: Bits)
    ensures if Need(p) == 0 || |b| < Need(p) then Run(p, b) == (p, b)
        else Run(p, b) == Run(Step(p, ToNat(b[..Need(p)])), b[Need(p)..])
  {
  }
}
