/** Reading back what sendMTFValues and BZ2_compressBlock write. */
module BlockRoundTrip {
  import opened Base
  import opened BitString
  import opened InverseBwt
  import opened MoveToFront
  import opened MtfEncoder
  import opened CanonicalCode
  import opened BlockFormat
  import opened BlockReader

  // ---- bytes and words ----

  lemma ReadByte(p: Phase, pre: seq<byte>, c: byte, q: Phase)
    requires Reads(p, BytesToBits(pre), q) && Need(q) == 8
    ensures Reads(p, BytesToBits(pre + [c]), Step(q, c))
  {
    hide Step, Need, Reads;
    Pow2Values();
    ReadField(q, c, 8);
    ReadsConcat(p, BytesToBits(pre), q, ToBits(c, 8), Step(q, c));
    assert (pre + [c])[..|pre|] == pre;
  }

  /** One more byte of a big-endian word. */
  lemma ReadWordByte(p: Phase, v: nat, n: nat, q: Phase)
    requires Reads(p, ToBits(v / 256, n), q) && Need(q) == 8
    ensures Reads(p, ToBits(v, n + 8), Step(q, v % 256))
  {
    hide Step, Need, Reads;
    Pow2Values();
    ReadField(q, v % 256, 8);
    ReadsConcat(p, ToBits(v / 256, n), q, ToBits(v % 256, 8), Step(q, v % 256));
    ToBitsConcat(v / 256, n, v % 256, 8);
  }

  lemma {:induction false} ReadBlockMagicTo(level: nat, k: nat)
    requires k <= 5
    ensures Reads(BlkHdr(level, 0), BytesToBits(BLOCK_MAGIC[..k]), BlkHdr(level, k))
  {
    hide Reads, ToBits, BytesToBits;
    if k == 0 {
      ReadNothing(BlkHdr(level, 0));
      NoBits(0);
      assert BLOCK_MAGIC[..0] == [];
    } else {
      ReadBlockMagicTo(level, k - 1);
      ReadByte(BlkHdr(level, 0), BLOCK_MAGIC[..k - 1], BLOCK_MAGIC[k - 1], BlkHdr(level, k - 1));
      assert BLOCK_MAGIC[..k] == BLOCK_MAGIC[..k - 1] + [BLOCK_MAGIC[k - 1]];
    }
  }

  lemma ReadBlockMagic(level: nat)
    ensures Reads(BlkHdr(level, 0), BytesToBits(BLOCK_MAGIC), BlkCrc(level, 0, 0))
  {
    hide Reads, ToBits, BytesToBits;
    ReadBlockMagicTo(level, 5);
    ReadByte(BlkHdr(level, 0), BLOCK_MAGIC[..5], BLOCK_MAGIC[5], BlkHdr(level, 5));
    assert BLOCK_MAGIC == BLOCK_MAGIC[..5] + [BLOCK_MAGIC[5]];
  }

  lemma {:induction false} ReadEndMagicTo(level: nat, k: nat)
    requires 1 <= k <= 5
    ensures Reads(BlkHdr(level, 0), BytesToBits(END_MAGIC[..k]), EndHdr(k))
  {
    hide Reads, ToBits, BytesToBits;
    if k == 1 {
      ReadNothing(BlkHdr(level, 0));
      NoBits(0);
      ReadByte(BlkHdr(level, 0), [], END_MAGIC[0], BlkHdr(level, 0));
      assert END_MAGIC[..1] == [] + [END_MAGIC[0]];
    } else {
      ReadEndMagicTo(level, k - 1);
      ReadByte(BlkHdr(level, 0), END_MAGIC[..k - 1], END_MAGIC[k - 1], EndHdr(k - 1));
      assert END_MAGIC[..k] == END_MAGIC[..k - 1] + [END_MAGIC[k - 1]];
    }
  }

  lemma ReadEndMagic(level: nat)
    ensures Reads(BlkHdr(level, 0), BytesToBits(END_MAGIC), CombCrc(0, 0))
  {
    hide Reads, ToBits, BytesToBits;
    ReadEndMagicTo(level, 5);
    ReadByte(BlkHdr(level, 0), END_MAGIC[..5], END_MAGIC[5], EndHdr(5));
    assert END_MAGIC == END_MAGIC[..5] + [END_MAGIC[5]];
  }

  lemma ReadHeader(level: nat)
    requires 1 <= level <= 9
    ensures Reads(Magic(0), HeaderBits(level), BlkHdr(level, 0))
  {
    hide Reads, Pow2, ToBits, BytesToBits;
    var p := Magic(0);
    ReadNothing(p);
    NoBits(0);
    ReadByte(p, [], 0x42, p);
    ReadByte(p, [] + [0x42], 0x5a, Magic(1));
    ReadByte(p, [] + [0x42] + [0x5a], 0x68, Magic(2));
    assert MAGIC == [] + [0x42] + [0x5a] + [0x68];
    Pow2Values();
    ReadField(Level, 0x30 + level, 8);
    ReadsConcat(p, BytesToBits(MAGIC), Level, ToBits(0x30 + level, 8), BlkHdr(level, 0));
  }

  /** Collecting the bytes of a word. */
  lemma CollectBlockCrc(level: nat, i: nat, v: nat)
    ensures Step(BlkCrc(level, i, v / 256), v % 256) == if i >= 3 then RandBit(level, v) else BlkCrc(level, i + 1, v)
  {
    assert v / 256 * 256 + v % 256 == v;
  }

  lemma CollectCombinedCrc(i: nat, v: nat)
    ensures Step(CombCrc(i, v / 256), v % 256) == if i >= 3 then End(v) else CombCrc(i + 1, v)
  {
    assert v / 256 * 256 + v % 256 == v;
  }

  lemma CollectOrigPtr(hd: Header, i: nat, v: nat)
    requires i <= 2
    ensures i < 2 ==> Step(OrigPtr(hd.(origPtr := v / 256), i), v % 256) == OrigPtr(hd.(origPtr := v), i + 1)
    ensures i == 2 && v <= 10 + 100000 * hd.level ==>
      Step(OrigPtr(hd.(origPtr := v / 256), i), v % 256) == Mapping1(hd.(origPtr := v), [])
  {
    assert v / 256 * 256 + v % 256 == v;
  }

  lemma WordBytes(v: nat)
    ensures v < Pow2(32) ==> v / 256 / 256 / 256 / 256 == 0
    ensures v < Pow2(24) ==> v / 256 / 256 / 256 == 0
  {
    Pow2Values();
  }

  lemma ReadBlockCrc(level: nat, crc: nat)
    requires crc < Pow2(32)
    ensures Reads(BlkCrc(level, 0, 0), ToBits(crc, 32), RandBit(level, crc))
  {
    hide Reads, Pow2, Step, ToBits;
    var p := BlkCrc(level, 0, 0);
    var a, b, c := crc / 256, crc / 256 / 256, crc / 256 / 256 / 256;
    WordBytes(crc);
    ReadNothing(p);
    NoBits(0);
    ReadWordByte(p, c, 0, p);
    CollectBlockCrc(level, 0, c);
    ReadWordByte(p, b, 8, BlkCrc(level, 1, c));
    CollectBlockCrc(level, 1, b);
    ReadWordByte(p, a, 16, BlkCrc(level, 2, b));
    CollectBlockCrc(level, 2, a);
    ReadWordByte(p, crc, 24, BlkCrc(level, 3, a));
    CollectBlockCrc(level, 3, crc);
  }

  lemma ReadCombinedCrc(crc: nat)
    requires crc < Pow2(32)
    ensures Reads(CombCrc(0, 0), ToBits(crc, 32), End(crc))
  {
    hide Reads, Pow2, Step, ToBits;
    var p := CombCrc(0, 0);
    var a, b, c := crc / 256, crc / 256 / 256, crc / 256 / 256 / 256;
    WordBytes(crc);
    ReadNothing(p);
    NoBits(0);
    ReadWordByte(p, c, 0, p);
    CollectCombinedCrc(0, c);
    ReadWordByte(p, b, 8, CombCrc(1, c));
    CollectCombinedCrc(1, b);
    ReadWordByte(p, a, 16, CombCrc(2, b));
    CollectCombinedCrc(2, a);
    ReadWordByte(p, crc, 24, CombCrc(3, a));
    CollectCombinedCrc(3, crc);
  }

  lemma ReadTrailer(level: nat, crc: nat)
    requires crc < Pow2(32)
    ensures Reads(BlkHdr(level, 0), TrailerBits(crc), End(crc))
  {
    hide Reads, Pow2;
    ReadEndMagic(level);
    ReadCombinedCrc(crc);
    ReadsConcat(BlkHdr(level, 0), BytesToBits(END_MAGIC), CombCrc(0, 0), ToBits(crc, 32), End(crc));
  }

  lemma ReadOrigPtr(hd: Header, o: nat)
    requires hd.origPtr == 0 && o < Pow2(24) && o <= 10 + 100000 * hd.level
    ensures Reads(OrigPtr(hd, 0), ToBits(o, 24), Mapping1(hd.(origPtr := o), []))
  {
    hide Reads, Pow2, Step, ToBits;
    var p := OrigPtr(hd, 0);
    var a, b := o / 256, o / 256 / 256;
    WordBytes(o);
    ReadNothing(p);
    NoBits(0);
    assert hd.(origPtr := 0) == hd;
    ReadWordByte(p, b, 0, p);
    CollectOrigPtr(hd, 0, b);
    ReadWordByte(p, a, 8, OrigPtr(hd.(origPtr := b), 1));
    CollectOrigPtr(hd, 1, a);
    ReadWordByte(p, o, 16, OrigPtr(hd.(origPtr := a), 2));
    CollectOrigPtr(hd, 2, o);
  }

  // ---- the mapping table ----

  lemma {:induction false} ReadGroups(hd: Header, gs: seq<bool>, k: nat)
    requires |gs| == 16 && k < 16
    ensures Reads(Mapping1(hd, gs[..k]), gs[k..], NextGroup(hd, gs, []))
    decreases 16 - k
  {
    hide Reads, NextGroup;
    var p := Mapping1(hd, gs[..k]);
    ReadBit(p, gs[k]);
    assert gs[..k] + [gs[k]] == gs[..k + 1] && gs[k..] == [gs[k]] + gs[k + 1..];
    if k == 15 {
      assert gs[..16] == gs && gs[k..] == [gs[k]];
    } else {
      ReadGroups(hd, gs, k + 1);
      ReadsConcat(p, [gs[k]], Mapping1(hd, gs[..k + 1]), gs[k + 1..], NextGroup(hd, gs, []));
    }
  }

  lemma {:induction false} ReadGroupMap(hd: Header, groups: seq<bool>, used: UseMap, g: nat, j: nat)
    requires |groups| == 16 && g < 16 && groups[g] && j <= 16
    ensures Reads(NextGroup(hd, groups, used[..16 * g + j]), used[16 * g + j..16 * g + 16],
        NextGroup(hd, groups, used[..16 * g + 16]))
    decreases 16 - j
  {
    hide Reads;
    if j == 16 {
      assert used[16 * g + 16..16 * g + 16] == [];
      ReadNothing(NextGroup(hd, groups, used[..16 * g + 16]));
    } else {
      var m := used[..16 * g + j];
      var x := used[16 * g + j];
      assert NextGroup(hd, groups, m) == Mapping2(hd, groups, m);
      ReadBit(Mapping2(hd, groups, m), x);
      assert m + [x] == used[..16 * g + (j + 1)];
      ReadGroupMap(hd, groups, used, g, j + 1);
      assert used[16 * g + j..16 * g + 16] == [x] + used[16 * g + (j + 1)..16 * g + 16];
      ReadsConcat(Mapping2(hd, groups, m), [x], NextGroup(hd, groups, m + [x]), used[16 * g + (j + 1)..16 * g + 16],
                  NextGroup(hd, groups, used[..16 * g + 16]));
    }
  }

  lemma SkipGroup(hd: Header, groups: seq<bool>, used: UseMap, g: nat)
    requires |groups| == 16 && g < 16 && !groups[g] && groups[g] == GroupUsed(used, g)
    ensures NextGroup(hd, groups, used[..16 * g]) == NextGroup(hd, groups, used[..16 * g + 16])
  {
    var m := used[..16 * g];
    var s := used[16 * g..16 * g + 16];
    forall i | 0 <= i < 16
      ensures s[i] == false
    {
      assert s[i] in s;
    }
    assert s == seq(16, _ => false);
    assert m + s == used[..16 * g + 16];
  }

  lemma {:induction false} ReadMaps(hd: Header, used: UseMap, g: nat)
    requires g <= 16 && Used(used, 256) != []
    ensures Reads(NextGroup(hd, UsedGroups(used), used[..16 * g]), GroupMaps(used, g), Selector1(hd, used))
    decreases 16 - g
  {
    hide Reads, Used;
    var groups := UsedGroups(used);
    if g == 16 {
      assert used[..256] == used && used[..256][..256] == used;
      ReadNothing(Selector1(hd, used));
    } else {
      ReadMaps(hd, used, g + 1);
      assert 16 * (g + 1) == 16 * g + 16;
      if groups[g] {
        ReadGroupMap(hd, groups, used, g, 0);
        ReadsConcat(NextGroup(hd, groups, used[..16 * g]), used[16 * g..16 * g + 16],
                    NextGroup(hd, groups, used[..16 * g + 16]), GroupMaps(used, g + 1), Selector1(hd, used));
      } else {
        SkipGroup(hd, groups, used, g);
        assert [] + GroupMaps(used, g + 1) == GroupMaps(used, g + 1);
      }
    }
  }

  lemma ReadMapping(hd: Header, used: UseMap)
    requires Used(used, 256) != []
    ensures Reads(Mapping1(hd, []), MapBits(used), Selector1(hd, used))
  {
    hide Reads, NextGroup, GroupMaps, Used;
    var gs := UsedGroups(used);
    assert gs[..0] == [] && gs[0..] == gs && used[..0] == [];
    ReadGroups(hd, gs, 0);
    ReadMaps(hd, used, 0);
    ReadsConcat(Mapping1(hd, []), gs, NextGroup(hd, gs, []), GroupMaps(used, 0), Selector1(hd, used));
  }

  // ---- the selectors ----

  lemma {:induction false} ReadUnary(hd: Header, used: UseMap, nGroups: nat, nSelectors: nat, m: seq<nat>, j: nat,
          n: nat)
    requires j + n < nGroups
    ensures Reads(Selector3(hd, used, nGroups, nSelectors, m, j), Unary(n),
        NextSelector(hd, used, nGroups, nSelectors, m + [j + n]))
    decreases n
  {
    hide Reads, NextSelector;
    var p := Selector3(hd, used, nGroups, nSelectors, m, j);
    if n == 0 {
      ReadBit(p, false);
    } else {
      ReadBit(p, true);
      ReadUnary(hd, used, nGroups, nSelectors, m, j + 1, n - 1);
      ReadsConcat(p, [true], Selector3(hd, used, nGroups, nSelectors, m, j + 1), Unary(n - 1),
                  NextSelector(hd, used, nGroups, nSelectors, m + [j + n]));
    }
  }

  lemma {:induction false} ReadUnaryAll(hd: Header, used: UseMap, nGroups: nat, m: seq<nat>, rest: seq<nat>)
    requires forall i :: 0 <= i < |rest| ==> rest[i] < nGroups
    ensures Reads(NextSelector(hd, used, nGroups, |m| + |rest|, m), UnaryAll(rest),
        NextSelector(hd, used, nGroups, |m| + |rest|, m + rest))
    decreases |rest|
  {
    hide Reads;
    var n := |m| + |rest|;
    if rest == [] {
      assert m + rest == m;
      ReadNothing(NextSelector(hd, used, nGroups, n, m));
    } else {
      ReadUnary(hd, used, nGroups, n, m, 0, rest[0]);
      ReadUnaryAll(hd, used, nGroups, m + [rest[0]], rest[1..]);
      assert m + [rest[0]] + rest[1..] == m + rest;
      ReadsConcat(NextSelector(hd, used, nGroups, n, m), Unary(rest[0]),
          NextSelector(hd, used, nGroups, n, m + [rest[0]]),
                  UnaryAll(rest[1..]), NextSelector(hd, used, nGroups, n, m + rest));
    }
  }

  /** The selector lists of encoder and decoder move in step. */
  lemma {:induction false} SelectorsRoundTrip(pos: seq<int>, sel: seq<nat>)
    requires (forall i :: 0 <= i < |sel| ==> sel[i] in pos) && forall i :: 0 <= i < |pos| ==> pos[i] >= 0
    ensures Selectors(pos, SelectorMtf(pos, sel)) == sel
    decreases |sel|
  {
    if sel != [] {
      var k := IndexOf(pos, sel[0]);
      MoveKeepsElements(pos, k);
      var q := Move(pos, k);
      forall i | 0 <= i < |q|
        ensures q[i] >= 0
      {
        assert q[i] in q;
      }
      SelectorsRoundTrip(q, sel[1..]);
      var m := SelectorMtf(pos, sel);
      assert m == [k] + SelectorMtf(q, sel[1..]);
      assert m[0] == k && m[1..] == SelectorMtf(q, sel[1..]);
      assert sel == [sel[0]] + sel[1..];
    }
  }

  lemma ReadSelectors(hd: Header, used: UseMap, n: nat, sel: seq<nat>)
    requires 2 <= n <= MAX_GROUPS && 1 <= |sel| && forall i :: 0 <= i < |sel| ==> sel[i] in Range(n)
    ensures Reads(NextSelector(hd, used, n, |sel|, []), UnaryAll(SelectorMtf(Range(n), sel)),
        Coding1(Body(hd, used, sel, []), n))
  {
    hide Reads, UnaryAll, SelectorMtf;
    var m := SelectorMtf(Range(n), sel);
    ReadUnaryAll(hd, used, n, [], m);
    assert [] + m == m;
    SelectorsRoundTrip(Range(n), sel);
  }

  // ---- the code lengths ----

  lemma {:induction false} ReadDelta(b: Body, nGroups: nat, row: seq<byte>, curr: byte, x: byte)
    requires 1 <= curr <= 20 && 1 <= x <= 20
    ensures Reads(Coding2(b, nGroups, row, curr), Delta(curr, x), NextLength(b, nGroups, row + [x], x))
    decreases if curr < x then x as int - curr as int else curr as int - x as int
  {
    hide Reads, NextLength;
    var p := Coding2(b, nGroups, row, curr);
    if curr == x {
      ReadBit(p, false);
    } else {
      var q := Coding3(b, nGroups, row, curr);
      ReadBit(p, true);
      ReadBit(q, curr > x);
      ReadsConcat(p, [true], q, [curr > x], Step(q, Bit(curr > x)));
      assert [true] + [curr > x] == [true, curr > x];
      var next: byte := if curr < x then curr + 1 else curr - 1;
      assert Step(q, Bit(curr > x)) == Coding2(b, nGroups, row, next);
      ReadDelta(b, nGroups, row, next, x);
      ReadsConcat(p, [true, curr > x], Coding2(b, nGroups, row, next), Delta(next, x),
          NextLength(b, nGroups, row + [x], x));
    }
  }

  ghost predicate InRange(row: seq<byte>) {
    forall i :: 0 <= i < |row| ==> 1 <= row[i] <= 20
  }

  function LastOf(curr: byte, row: seq<byte>): byte {
    if row == [] then curr else row[|row| - 1]
  }

  lemma {:induction false} ReadDeltas(b: Body, nGroups: nat, done: seq<byte>, curr: byte, rest: seq<byte>)
    requires |done| + |rest| == AlphaSize(b.used) && 1 <= curr <= 20 && InRange(rest)
    ensures Reads(NextLength(b, nGroups, done, curr), Deltas(curr, rest),
        NextLength(b, nGroups, done + rest, LastOf(curr, rest)))
    decreases |rest|
  {
    hide Reads, NextSymbol;
    if rest == [] {
      assert done + rest == done;
      ReadNothing(NextLength(b, nGroups, done, curr));
    } else {
      var x := rest[0];
      ReadDelta(b, nGroups, done, curr, x);
      ReadDeltas(b, nGroups, done + [x], x, rest[1..]);
      assert done + [x] + rest[1..] == done + rest;
      assert LastOf(x, rest[1..]) == LastOf(curr, rest);
      ReadsConcat(NextLength(b, nGroups, done, curr), Delta(curr, x), NextLength(b, nGroups, done + [x], x),
                  Deltas(x, rest[1..]), NextLength(b, nGroups, done + rest, LastOf(curr, rest)));
    }
  }

  /** Where the machine stands once the tables in b.lens are complete. */
  function AfterRows(b: Body, nGroups: nat): Phase {
    if |b.lens| < nGroups then Coding1(b, nGroups) else NextSymbol(b, 0, Idle(Range(256), []))
  }

  lemma ReadRow(b: Body, nGroups: nat, row: seq<byte>)
    requires |row| == AlphaSize(b.used) && InRange(row)
    ensures row != [] && Reads(Coding1(b, nGroups), RowBits(row), AfterRows(b.(lens := b.lens + [row]), nGroups))
  {
    hide Reads, NextSymbol, AlphaSize;
    assert |row| > 0 by {
      AlphaPositive(b.used);
    }
    var p := Coding1(b, nGroups);
    assert Pow2(5) == 32;
    ReadField(p, row[0], 5);
    ReadDeltas(b, nGroups, [], row[0], row);
    assert [] + row == row;
    ReadsConcat(p, ToBits(row[0], 5), NextLength(b, nGroups, [], row[0]), Deltas(row[0], row),
                AfterRows(b.(lens := b.lens + [row]), nGroups));
  }

  lemma AlphaPositive(used: UseMap)
    ensures AlphaSize(used) >= 2
  {
  }

  lemma {:induction false} ReadAllRows(b: Body, nGroups: nat, rest: seq<seq<byte>>)
    requires |b.lens| + |rest| == nGroups
    requires forall t :: 0 <= t < |rest| ==> rest[t] != [] && |rest[t]| == AlphaSize(b.used) && InRange(rest[t])
    ensures Reads(AfterRows(b, nGroups), AllRows(rest), NextSymbol(b.(lens := b.lens + rest), 0, Idle(Range(256), [])))
    decreases |rest|
  {
    hide Reads, NextSymbol, AlphaSize, RowBits;
    if rest == [] {
      assert b.lens + rest == b.lens;
      ReadNothing(AfterRows(b, nGroups));
    } else {
      var b' := b.(lens := b.lens + [rest[0]]);
      ReadRow(b, nGroups, rest[0]);
      ReadAllRows(b', nGroups, rest[1..]);
      assert b'.lens + rest[1..] == b.lens + rest;
      ReadsConcat(AfterRows(b, nGroups), RowBits(rest[0]), AfterRows(b', nGroups), AllRows(rest[1..]),
                  NextSymbol(b.(lens := b.lens + rest), 0, Idle(Range(256), [])));
    }
  }

  // ---- the symbols ----

  lemma {:induction false} LenBounds(row: seq<byte>, i: nat)
    requires i < |row|
    ensures MinLen(row) <= row[i] <= MaxLen(row)
  {
    if i < |row| - 1 {
      LenBounds(row[..|row| - 1], i);
    }
  }

  lemma {:induction false} LenReached(row: seq<byte>)
    requires row != [] && InRange(row)
    ensures 1 <= MinLen(row) <= MaxLen(row) <= 20
  {
    if |row| > 1 {
      LenReached(row[..|row| - 1]);
    }
  }

  /** The code of `i`, complete, finds `i`. */
  lemma LookupFinds(row: seq<byte>, i: nat)
    requires i < |row| && row[i] > 0
    ensures Lookup(row, row[i], CodeOf(row, i)) == Some(i) && CodeOf(row, i) <= LimitAt(row, row[i])
  {
    hide Occupied, TVector, MinLen, MaxLen;
    LenBounds(row, i);
    CodeInRange(row, i);
    TVectorAt(row, |row|, i);
    PermPlace(row, i);
  }

  /** A proper prefix of a code never passes the limit test. */
  lemma PrefixFails(row: seq<byte>, i: nat, n: nat)
    requires FitsKraft(row, MAX_LEN) && i < |row| && MinLen(row) <= n < row[i]
    ensures ToNat(CodeBits(row, i)[..n]) > LimitAt(row, n)
  {
    hide Occupied, MinLen, MaxLen, CodeOf, Shr;
    LenBounds(row, i);
    CodePrefix(row, MAX_LEN, i, n);
    CutBeyond(row, i, n);
  }

  lemma {:induction false} ReadCodeFrom(b: Body, count: nat, row: seq<byte>, s: MtfList, i: nat, n: nat)
    requires FitsKraft(row, MAX_LEN) && i < |row| && 1 <= MinLen(row) <= n <= row[i]
    ensures Reads(CheckCode(b, count, row, s, n, ToNat(CodeBits(row, i)[..n])), CodeBits(row, i)[n..],
        TakeSymbol(b, count, s, i))
    decreases row[i] - n
  {
    hide Reads, Lookup, TakeSymbol, LimitAt, MinLen, CodeOf, ToNat, FitsKraft;
    var code := CodeBits(row, i);
    FitsBounds(row, i);
    if n == row[i] {
      assert code[..n] == code && code[n..] == [];
      LookupFinds(row, i);
      CodeValue(row, i);
      ReadNothing(TakeSymbol(b, count, s, i));
    } else {
      PrefixFails(row, i, n);
      var zvec := ToNat(code[..n]);
      var p := Mtf2(b, count, row, s, n + 1, zvec);
      ReadBit(p, code[n]);
      ToNatPush(code[..n], code[n]);
      assert code[..n] + [code[n]] == code[..n + 1] && code[n..] == [code[n]] + code[n + 1..];
      ReadCodeFrom(b, count, row, s, i, n + 1);
      ReadsConcat(p, [code[n]], CheckCode(b, count, row, s, n + 1, ToNat(code[..n + 1])), code[n + 1..],
          TakeSymbol(b, count, s, i));
    }
  }

  lemma FitsBounds(row: seq<byte>, i: nat)
    requires FitsKraft(row, MAX_LEN) && i < |row|
    ensures 1 <= row[i] <= 20
  {
  }

  lemma CodeValue(row: seq<byte>, i: nat)
    requires FitsKraft(row, MAX_LEN) && i < |row|
    ensures ToNat(CodeBits(row, i)) == CodeOf(row, i)
  {
    CodeFits(row, MAX_LEN, i);
    BitsRoundTrip(CodeOf(row, i), row[i]);
  }

  /** The limit/base/perm loop reads exactly one code and returns its symbol. */
  lemma ReadCode(b: Body, count: nat, row: seq<byte>, s: MtfList, i: nat)
    requires FitsKraft(row, MAX_LEN) && i < |row|
    ensures Reads(Mtf1(b, count, row, s), CodeBits(row, i), TakeSymbol(b, count, s, i))
  {
    hide Reads, TakeSymbol, MinLen, CheckCode, CodeBits, ToNat;
    assert InRange(row);
    LenReached(row);
    LenBounds(row, i);
    var n := MinLen(row);
    var code := CodeBits(row, i);
    var p := Mtf1(b, count, row, s);
    NatRoundTrip(code[..n]);
    ReadField(p, ToNat(code[..n]), n);
    ReadCodeFrom(b, count, row, s, i, n);
    ReadsConcat(p, code[..n], CheckCode(b, count, row, s, n, ToNat(code[..n])), code[n..], TakeSymbol(b, count, s, i));
    assert code[..n] + code[n..] == code;
  }

  lemma OnlyEobFinishes(s: MtfState, sym: nat, eob: nat, limit: nat)
    requires |s.list| == 256 && eob <= 257
    ensures Accept(s, sym, eob, limit).Finished? ==> sym == eob
  {
  }

  /** Reading all codes from symbol k on feeds all symbols to the move-to-front decoder. */
  lemma {:induction false} ReadCodes(c: Coding, syms: seq<nat>, hd: Header, k: nat, s: MtfList, column: seq<int>)
    requires ValidCoding(c, |syms|) && SymbolsFit(c, syms) && k < |syms|
    requires forall i :: 0 <= i < |syms| - 1 ==> syms[i] != AlphaSize(c.used) - 1
    requires AcceptAll(s, syms[k..], AlphaSize(c.used) - 1, 100000 * hd.level) == Finished(column)
    requires hd.origPtr < |column|
    ensures Reads(NextSymbol(Body(hd, c.used, c.selectors, c.lens), k, s), CodesFrom(c, syms, k),
        Output(hd, Unranked(c.used, column)))
    decreases |syms| - k
  {
    hide Reads, Unranked, Accept, AlphaSize, CodeBits;
    var b := Body(hd, c.used, c.selectors, c.lens);
    var row := c.lens[c.selectors[k / GROUP_SIZE]];
    var eob := AlphaSize(c.used) - 1;
    var limit := 100000 * hd.level;
    AlphaBounds(c.used);
    ReadCode(b, k, row, s, syms[k]);
    OnlyEobFinishes(s, syms[k], eob, limit);
    assert syms[k..][0] == syms[k] && syms[k..][1..] == syms[k + 1..];
    var r := Accept(s, syms[k], eob, limit);
    if k == |syms| - 1 {
      assert syms[k + 1..] == [];
      assert CodesFrom(c, syms, k) == CodeBits(row, syms[k]) + [] == CodeBits(row, syms[k]);
    } else {
      ReadCodes(c, syms, hd, k + 1, r.state, column);
      ReadsConcat(Mtf1(b, k, row, s), CodeBits(row, syms[k]), NextSymbol(b, k + 1, r.state), CodesFrom(c, syms, k + 1),
                  Output(hd, Unranked(c.used, column)));
    }
  }

  lemma AlphaBounds(used: UseMap)
    ensures 2 <= AlphaSize(used) <= 258
  {
  }

  // ---- the whole block ----

  lemma {:induction false} ReadBody(hd: Header, c: Coding, syms: seq<nat>, column: seq<int>)
    requires ValidCoding(c, |syms|) && SymbolsFit(c, syms) && syms != []
    requires forall i :: 0 <= i < |syms| - 1 ==> syms[i] != AlphaSize(c.used) - 1
    requires AcceptAll(Idle(Range(256), []), syms, AlphaSize(c.used) - 1, 100000 * hd.level) == Finished(column)
    requires hd.origPtr < |column|
    ensures Reads(Mapping1(hd, []), BodyBits(c, syms), Output(hd, Unranked(c.used, column)))
  {
    hide Reads, Unranked, AcceptAll, AlphaSize, NextSymbol, CodesFrom, AllRows, UnaryAll, SelectorMtf, MapBits, Used;
    var n, sel, out := |c.lens|, c.selectors, Output(hd, Unranked(c.used, column));
    ReadySelectors(c, |syms|);
    var codes := CodesFrom(c, syms, 0);
    var b := Body(hd, c.used, sel, []);
    assert syms[0..] == syms && [] + c.lens == c.lens;
    ReadCodes(c, syms, hd, 0, Idle(Range(256), []), column);
    RowsInRange(c, |syms|);
    ReadAllRows(b, n, c.lens);
    ReadsConcat(Coding1(b, n), AllRows(c.lens), NextSymbol(b.(lens := c.lens), 0, Idle(Range(256), [])), codes, out);
    ReadSelectors(hd, c.used, n, sel);
    var tail := AllRows(c.lens) + codes;
    ReadsConcat(NextSelector(hd, c.used, n, |sel|, []), UnaryAll(SelectorMtf(Range(n), sel)), Coding1(b, n), tail, out);
    ReadCounts(hd, c.used, n, |sel|, UnaryAll(SelectorMtf(Range(n), sel)) + tail, out);
    ReadMapping(hd, c.used);
    ReadsConcat(Mapping1(hd, []), MapBits(c.used), Selector1(hd, c.used),
                ToBits(n, 3) + (ToBits(|sel|, 15) + (UnaryAll(SelectorMtf(Range(n), sel)) + tail)), out);
  }

  lemma RowsInRange(c: Coding, n: nat)
    requires ValidCoding(c, n)
    ensures forall t :: 0 <= t < |c.lens| ==> |c.lens[t]| == AlphaSize(c.used) && InRange(c.lens[t])
  {
  }

  lemma ReadCounts(hd: Header, used: UseMap, n: nat, m: nat, tail: Bits, out: Phase)
    requires 2 <= n <= 6 && 1 <= m < 32768 && Reads(NextSelector(hd, used, n, m, []), tail, out)
    ensures Reads(Selector1(hd, used), ToBits(n, 3) + (ToBits(m, 15) + tail), out)
  {
    hide Reads, NextSelector, Used;
    Pow2Values();
    assert Pow2(3) == 8 && Pow2(15) == 32768;
    ReadField(Selector2(hd, used, n), m, 15);
    ReadsConcat(Selector2(hd, used, n), ToBits(m, 15), NextSelector(hd, used, n, m, []), tail, out);
    ReadField(Selector1(hd, used), n, 3);
    ReadsConcat(Selector1(hd, used), ToBits(n, 3), Selector2(hd, used, n), ToBits(m, 15) + tail, out);
  }

  lemma ReadBlockHeader(level: nat, crc: nat, o: nat, body: Bits, out: Phase)
    requires crc < Pow2(32) && o < Pow2(24) && o <= 10 + 100000 * level
    requires Reads(Mapping1(Header(level, crc, false, o), []), body, out)
    ensures Reads(BlkHdr(level, 0),
                  BytesToBits(BLOCK_MAGIC) + (ToBits(crc, 32) + ([false] + (ToBits(o, 24) + body))), out)
  {
    hide Reads, Pow2, ToBits, BytesToBits;
    var hd := Header(level, crc, false, 0);
    ReadOrigPtr(hd, o);
    ReadsConcat(OrigPtr(hd, 0), ToBits(o, 24), Mapping1(Header(level, crc, false, o), []), body, out);
    ReadBit(RandBit(level, crc), false);
    ReadsConcat(RandBit(level, crc), [false], OrigPtr(hd, 0), ToBits(o, 24) + body, out);
    ReadBlockCrc(level, crc);
    ReadsConcat(BlkCrc(level, 0, 0), ToBits(crc, 32), RandBit(level, crc), [false] + (ToBits(o, 24) + body), out);
    ReadBlockMagic(level);
    ReadsConcat(BlkHdr(level, 0), BytesToBits(BLOCK_MAGIC), BlkCrc(level, 0, 0),
                ToBits(crc, 32) + ([false] + (ToBits(o, 24) + body)), out);
  }

  /** The symbols of a column fit the alphabet, and only the last is end-of-block. */
  lemma SymbolsOfColumn(used: UseMap, l: seq<byte>)
    requires Marks(used, l)
    ensures var syms, eob := BlockSymbols(used, l), AlphaSize(used) - 1;
      && 1 <= |syms| <= |l| + 1 && forall i :: 0 <= i < |syms| - 1 ==> syms[i] < eob
    ensures forall i :: 0 <= i < |BlockSymbols(used, l)| ==> BlockSymbols(used, l)[i] < AlphaSize(used)
    ensures l != [] ==> Used(used, 256) != []
  {
    hide Used;
    RankedInList(used, l);
    var n := |Used(used, 256)|;
    if l != [] {
      assert Ranked(used, l)[0] < n;
      SymbolsBounded(Range(n), 0, Ranked(used, l));
    }
  }

  lemma UnrankedRanked(used: UseMap, l: seq<byte>)
    requires Marks(used, l)
    ensures Unranked(used, Ranked(used, l)) == l
  {
    RankedInList(used, l);
  }

  /** The decoder's list: positions of bytes in use first. */
  lemma SplitRange(n: nat)
    requires n <= 256
    ensures Range(256) == Range(n) + Range(256)[n..] && |Range(256)[n..]| == 256 - n
  {
  }

  lemma DecodeSymbols(used: UseMap, l: seq<byte>, limit: nat)
    requires Marks(used, l) && 0 < |l| <= limit <= 900000
    ensures AcceptAll(Idle(Range(256), []), BlockSymbols(used, l), AlphaSize(used) - 1, limit)
        == Finished(Ranked(used, l))
  {
    hide AcceptAll, Used, Symbols;
    var n, col := |Used(used, 256)|, Ranked(used, l);
    RankedInList(used, l);
    assert col[0] < n;
    SplitRange(n);
    MtfRoundTrip(Range(n), Range(256)[n..], [], 0, col, n + 1, limit);
    assert [] + Repeat<int>(Range(n)[0], 0) + col == col;
  }

  /**
   * Block round trip: for every last column, every origin row, every checksum and every
   * valid choice of tables and selectors, the decoder reads the block's bits exactly and
   * stands ready to output that column from that row.
   */
  lemma BlockReadsBack(level: nat, crc: nat, o: nat, c: Coding, l: seq<byte>)
    requires 1 <= level <= 9 && crc < Pow2(32) && o < |l| <= 100000 * level
    requires Marks(c.used, l) && ValidCoding(c, |BlockSymbols(c.used, l)|)
    ensures SymbolsFit(c, BlockSymbols(c.used, l))
    ensures Reads(BlkHdr(level, 0), BlockBits(crc, o, c, BlockSymbols(c.used, l)),
        Output(Header(level, crc, false, o), l))
  {
    hide Reads, AcceptAll, BlockSymbols, AlphaSize, BodyBits, Used, Pow2;
    Pow2Values();
    var syms, hd := BlockSymbols(c.used, l), Header(level, crc, false, o);
    SymbolsOfColumn(c.used, l);
    DecodeSymbols(c.used, l, 100000 * level);
    ReadBody(hd, c, syms, Ranked(c.used, l));
    UnrankedRanked(c.used, l);
    ReadBlockHeader(level, crc, o, BodyBits(c, syms), Output(hd, l));
  }
}
