/**
 * BZ2_decompress on DState's own storage: limit/base/perm tables, sliding lists, tt or ll16, unzftab, group counters.
 */
module DecoderMachine {
  import opened Base
  import opened BitString
  import opened BitReading
  import opened MoveToFront
  import opened MtfEncoder
  import opened CanonicalCode
  import opened BlockFormat
  import opened BlockReader
  import opened BlockRoundTrip
  import opened BlockWriter
  import opened DecoderSound
  import opened ColumnDecoder

  // ---- undoing the selectors ----

  /** Moves entry `v` of pos to the front. */
  method MoveToTop(pos: array<int>, n: nat, v0: nat) returns (tmp: int)
    requires v0 < n <= pos.Length
    modifies pos
    ensures tmp == old(pos[v0]) && pos[..n] == Move(old(pos[..n]), v0)
  {
    ghost var list := pos[..n];
    tmp := pos[v0];
    var v := v0;
    while v > 0
      invariant v <= v0
      invariant forall i :: v < i <= v0 ==> pos[i] == list[i - 1]
      invariant forall i :: 0 <= i <= v ==> pos[i] == list[i]
      invariant forall i :: v0 < i < n ==> pos[i] == list[i]
    {
      pos[v] := pos[v - 1];
      v := v - 1;
    }
    pos[0] := tmp;
  }

  lemma SelectorsStep(pos: seq<int>, m: seq<nat>)
    requires m != [] && m[0] < |pos| && pos[m[0]] >= 0
    ensures Selectors(pos, m) == [pos[m[0]]] + Selectors(Move(pos, m[0]), m[1..])
  {
  }

  method UndoSelectors(m: seq<nat>, nGroups: nat) returns (sel: seq<nat>)
    requires nGroups <= MAX_GROUPS && forall i :: 0 <= i < |m| ==> m[i] < nGroups
    ensures sel == Selectors(Range(nGroups), m)
  {
    hide Selectors;
    var pos := new int[MAX_GROUPS](v => v);
    sel := [];
    ghost var all := Selectors(Range(nGroups), m);
    assert pos[..nGroups] == Range(nGroups) && m[0..] == m && [] + all == all;
    var i := 0;
    while i < |m|
      invariant 0 <= i <= |m| && sel + Selectors(pos[..nGroups], m[i..]) == all
      invariant forall k :: 0 <= k < nGroups ==> 0 <= pos[..nGroups][k] < nGroups
    {
      ghost var p, rest := pos[..nGroups], m[i..];
      assert rest[0] == m[i] && rest[1..] == m[i + 1..];
      SelectorsStep(p, rest);
      MoveKeepsFront(p, m[i], nGroups);
      var tmp := MoveToTop(pos, nGroups, m[i]);
      Associate(sel, [tmp as nat], Selectors(pos[..nGroups], m[i + 1..]));
      sel := sel + [tmp];
      i := i + 1;
    }
    assert m[i..] == [];
    NoSelectors(pos[..nGroups]);
  }

  lemma NoSelectors(pos: seq<int>)
    ensures Selectors(pos, []) == []
  {
  }

  // ---- the decoding tables ----

  /** Table `t` is what BZ2_hbCreateDecodeTables makes of the lengths in `row`. */
  ghost predicate TableOf(t: DecodeTable, row: seq<byte>) {
    && row != [] && InRange(row) && TableFor(row, MaxLen(row), t) && t.minLen == MinLen(row) && |t.perm| == MAX_ALPHA
    && forall n :: MaxLen(row) < n <= MAX_LEN ==> t.limit[n] == 0
  }

  ghost predicate TablesOf(tables: seq<DecodeTable>, lens: seq<seq<byte>>) {
    |tables| == |lens| && forall t :: 0 <= t < |lens| ==> TableOf(tables[t], lens[t])
  }

  method MakeTable(row: seq<byte>) returns (t: DecodeTable)
    requires row != [] && InRange(row) && |row| <= MAX_ALPHA
    ensures TableOf(t, row)
  {
    hide MinLen, MaxLen, TableFor;
    var minLen, maxLen := LengthRange(row);
    LenReached(row);
    forall i | 0 <= i < |row|
      ensures minLen <= row[i] <= maxLen
    {
      LenBounds(row, i);
    }
    t := CreateDecodeTables(row, minLen, maxLen);
  }

  method MakeTables(lens: seq<seq<byte>>) returns (tables: seq<DecodeTable>)
    requires forall t :: 0 <= t < |lens| ==> lens[t] != [] && InRange(lens[t]) && |lens[t]| <= MAX_ALPHA
    ensures TablesOf(tables, lens)
  {
    hide TableOf, InRange;
    tables := [];
    var t := 0;
    while t < |lens|
      invariant 0 <= t == |tables| <= |lens| && forall u :: 0 <= u < t ==> TableOf(tables[u], lens[u])
    {
      var table := MakeTable(lens[t]);
      tables := tables + [table];
      t := t + 1;
    }
  }

  // ---- the machine ----

  /** Where the decoder stands: before the symbols, at the first or a later bit of a code, or at a complete block. */
  datatype Control = Parsing(p: Phase) | FirstBits | LaterBit(zn: nat, zvec: nat) | AtBlock

  /** Why BZ2_decompress returned. */
  datatype Stop = Wants | HasBlock | AtEnd(crc: nat) | Corrupted | NotMagic

  /** A state outside the symbols and the output. */
  predicate Outside(p: Phase) {
    !p.Mtf1? && !p.Mtf2? && !p.Output?
  }

  class Machine {
    var ctl: Control
    var body: Body                     // header, inUse, selector and len of the block
    var tables: seq<DecodeTable>       // limit, base, perm and minLens
    var builder: Builder?
    var groupNo: int
    var groupPos: nat
    ghost var phase: Phase             // the state of the machine of BlockReader
    ghost var count: nat               // symbols begun

    /** Reading symbols into the builder. */
    ghost predicate Building()
      reads this, builder, if builder == null then {} else builder.Repr()
    {
      && builder != null && builder.Valid() && builder.used == body.used && builder.limit == 100000 * body.hd.level
      && TablesOf(tables, body.lens) && |body.lens| > 0
    }

    /** The current symbol's group and table. */
    ghost predicate InGroup()
      reads this
    {
      && groupNo == count / GROUP_SIZE && groupNo < |body.sel| && groupPos == GROUP_SIZE - 1 - count % GROUP_SIZE
      && body.sel[groupNo] < |body.lens|
    }

    ghost predicate Valid()
      reads this, builder, if builder == null then {} else builder.Repr()
    {
      && Sound(phase)
      && match ctl
         case Parsing(p) => phase == p && Outside(p)
         case FirstBits =>
           Building() && InGroup() && phase == Mtf1(body, count, body.lens[body.sel[groupNo]], builder.State())
         case LaterBit(zn, zvec) =>
           && Building() && InGroup()
           && phase == Mtf2(body, count, body.lens[body.sel[groupNo]], builder.State(), zn, zvec)
         case AtBlock =>
           && phase.Output? && phase.hd == body.hd
           && (builder != null ==> builder.Storage() && builder.limit == 100000 * body.hd.level)
           && (builder != null ==> phase.column == Unranked(builder.used, builder.col))
    }

    ghost function Repr(): set<object>
      reads this
    {
      {this} + if builder == null then {} else builder.Repr()
    }

    constructor ()
      ensures Valid() && phase == Magic(0) && builder == null
    {
      ctl, phase := Parsing(Magic(0)), Magic(0);
      body := Body(Header(0, 0, false, 0), seq(256, _ => false), [], []);
      tables, builder, groupNo, groupPos, count := [], null, -1, 0, 0;
    }

    /** How many bits the GET_BITS at hand asks for. */
    method Request() returns (n: nat)
      requires Valid()
      ensures n == Need(phase)
    {
      match ctl
      case Parsing(p) => n := Need(p);
      case FirstBits =>
        assert TableOf(tables[body.sel[groupNo]], body.lens[body.sel[groupNo]]);
        n := tables[body.sel[groupNo]].minLen;
      case LaterBit(_, _) => n := 1;
      case AtBlock => n := 0;
    }

    /** The head of GET_MTF_VAL: a new group every fifty symbols. */
    method NextCode()
      requires Building() && builder.mtf.Valid() && |builder.State().list| == 256
      requires Waiting(count, groupNo, groupPos) && (groupPos > 0 ==> groupNo < |body.sel|) && BodyOk(body, |body.lens|)
      requires Sound(NextSymbol(body, count, builder.State()))
      modifies this`ctl, this`groupNo, this`groupPos, this`phase
      ensures Valid() && phase == NextSymbol(body, count, builder.State())
    {
      hide Sound, TablesOf, Builder.Valid, Builder.State, Waiting, Builder.Storage;
      SelectorNames(body);
      WaitingFor(count, groupNo, groupPos);
      phase := NextSymbol(body, count, builder.State());
      if groupPos == 0 {
        groupNo := groupNo + 1;
        if groupNo >= |body.sel| {
          ctl := Parsing(DataError);
          return;
        }
        groupPos := GROUP_SIZE;
      }
      groupPos := groupPos - 1;
      ctl := FirstBits;
    }

    /** Everything the symbols need: tables from the lengths, fresh lists, counters at zero. */
    method BeginBlock(b: Body)
      requires BodyOk(b, |b.lens|) && Sound(NextSymbol(b, 0, Idle(Range(256), [])))
      modifies this
      ensures Valid() && phase == NextSymbol(b, 0, Idle(Range(256), [])) && builder != null && fresh(builder.Repr())
    {
      hide Sound, Builder.Valid, Builder.Storage, TableOf, InRange, Used, NextSymbol;
      BodyRows(b);
      body := b;
      tables := MakeTables(b.lens);
      builder := new Builder(b.used, 100000 * b.hd.level);
      builder.StateSize();
      groupNo, groupPos, count := -1, 0, 0;
      NextCode();
    }

    /** A symbol: into the lists and the column, then on to the next code or the end of the block. */
    method Enter(sym: nat)
      requires Building() && InGroup() && BodyOk(body, |body.lens|) && sym < AlphaSize(body.used)
      requires builder.mtf.Valid() && |builder.State().list| == 256
      requires Sound(TakeSymbol(body, count, builder.State(), sym))
      modifies this, builder.Repr()
      ensures Valid() && phase == old(TakeSymbol(body, count, builder.State(), sym)) && builder == old(builder)
    {
      hide Sound, Builder.Valid, Builder.State, Builder.Storage, TablesOf, Accept, NextSymbol, Unranked;
      ghost var s := builder.State();
      phase := TakeSymbol(body, count, s, sym);
      var r := builder.TakeSymbol(sym);
      match r
      case Continue =>
        CountOn(count, groupNo, groupPos);
        count := count + 1;
        builder.StateSize();
        NextCode();
      case BadData => ctl := Parsing(DataError);
      case EndOfBlock =>
        builder.ColumnSize();
        if body.hd.origPtr < builder.nblock {
          ctl := AtBlock;
        } else {
          ctl := Parsing(DataError);
        }
    }

    /** What follows the bits of a code so far: decode, ask for one more, or report an error. */
    method Decide(zn: nat, zvec: nat)
      requires Building() && InGroup() && BodyOk(body, |body.lens|) && builder.mtf.Valid()
      requires |builder.State().list| == 256
      requires Coming(body.lens[body.sel[groupNo]], body, zn, zvec)
      requires Sound(CheckCode(body, count, body.lens[body.sel[groupNo]], builder.State(), zn, zvec))
      modifies this, builder.Repr()
      ensures Valid() && builder == old(builder)
      ensures phase == old(CheckCode(body, count, body.lens[body.sel[groupNo]], builder.State(), zn, zvec))
    {
      hide Sound, Builder.Valid, Builder.State, Builder.Storage, TableOf, TakeSymbol, LimitAt, Lookup, MinLen;
      ghost var row, s := body.lens[body.sel[groupNo]], builder.State();
      assert TableOf(tables[body.sel[groupNo]], row);
      var f := LookUp(tables[body.sel[groupNo]], row, body, zn, zvec);
      match f
      case Symbol(sym) => Enter(sym);
      case Longer =>
        phase := CheckCode(body, count, row, s, zn, zvec);
        ctl := LaterBit(zn + 1, zvec);
      case Corrupt =>
        phase := CheckCode(body, count, row, s, zn, zvec);
        ctl := Parsing(DataError);
    }

    /** The states before the symbols: the selectors are undone and the tables made where they are complete. */
    method Parse(p: Phase, v: nat)
      requires Outside(p) && Sound(p) && Sound(Step(p, v)) && Need(p) != 0
      modifies this
      ensures Valid() && phase == Step(p, v) && (builder == old(builder) || (builder != null && fresh(builder.Repr())))
      ensures phase.Output? ==> builder != null
    {
      hide Sound, Builder.Valid, Builder.State, Builder.Storage, TablesOf, Step, NextLength, Selectors, NextSymbol;
      if EndsRows(p, v) {
        LastRow(p, v);
        BeginBlock(p.body.(lens := p.body.lens + [p.row + [p.curr]]));
      } else if EndsSelectors(p, v) {
        LastSelector(p, v);
        var sel := UndoSelectors(p.mtf + [p.j], p.nGroups);
        phase := Step(p, v);
        ctl := Parsing(Coding1(Body(p.hd, p.used, sel, []), p.nGroups));
      } else {
        StaysOutside(p, v);
        phase := Step(p, v);
        ctl := Parsing(Step(p, v));
      }
    }

    /** A code at its first request. */
    method AnswerFirst(v: nat)
      requires Valid() && ctl.FirstBits? && Sound(Step(phase, v))
      modifies this, builder.Repr()
      ensures Valid() && phase == Step(old(phase), v) && builder == old(builder)
    {
      hide Sound, Builder.Valid, Builder.State, Builder.Storage, TableOf, CheckCode, Coming;
      ghost var row := body.lens[body.sel[groupNo]];
      assert TableOf(tables[body.sel[groupNo]], row);
      builder.StateSize();
      SoundFirst(body, count, row, builder.State(), tables[body.sel[groupNo]], v);
      Decide(tables[body.sel[groupNo]].minLen, v);
    }

    /** One more bit of a code. */
    method AnswerLater(v: nat)
      requires Valid() && ctl.LaterBit? && Sound(Step(phase, v))
      modifies this, builder.Repr()
      ensures Valid() && phase == Step(old(phase), v) && builder == old(builder)
    {
      hide Sound, Builder.Valid, Builder.State, Builder.Storage, TablesOf, CheckCode, Coming;
      ghost var row := body.lens[body.sel[groupNo]];
      builder.StateSize();
      SoundLater(body, count, row, builder.State(), ctl.zn, ctl.zvec, v);
      Decide(ctl.zn, 2 * ctl.zvec + v);
    }

    /** The bits of one request, and everything up to the next. */
    method Answer(v: nat)
      requires Valid() && Need(phase) != 0
      modifies this, if builder == null then {} else builder.Repr()
      ensures Valid() && phase == Step(old(phase), v)
      ensures builder == old(builder) || (builder != null && fresh(builder.Repr()))
      ensures phase.Output? ==> builder != null
    {
      hide Sound, Step, Building, InGroup, Builder.Storage;
      StepKeepsSound(phase, v);
      match ctl
      case Parsing(p) => Parse(p, v);
      case FirstBits => AnswerFirst(v);
      case LaterBit(_, _) => AnswerLater(v);
    }

    /** s->state and retVal as BZ2_bzDecompress looks at them. */
    method Status() returns (r: Stop)
      requires Valid()
      ensures r.HasBlock? == phase.Output? && r.AtEnd? == phase.End? && r.Corrupted? == phase.DataError?
      ensures r.NotMagic? == phase.MagicError?
      ensures r.Wants? == (Need(phase) != 0) && (r.AtEnd? ==> r.crc == phase.crc)
    {
      hide Building, InGroup, Builder.Storage, Unranked, Sound, MinLen;
      Fields();
      NeedBounded(phase);
      match ctl
      case AtBlock => r := HasBlock;
      case FirstBits => r := Wants;
      case LaterBit(_, _) => r := Wants;
      case Parsing(p) =>
        r := if p.End? then AtEnd(p.crc)
             else if p.DataError? then Corrupted
             else if p.MagicError? then NotMagic
             else Wants;
    }

    /** s->state == BZ_X_IDLE. */
    predicate Over()
      reads this
    {
      ctl.Parsing? && ctl.p.End?
    }

    lemma Fields()
      requires Valid()
      ensures Sound(phase)
      ensures (phase.Output? ==> body.hd == phase.hd && 1 <= phase.hd.level <= 9 && phase.hd.origPtr < |phase.column|)
    {
      hide Building, InGroup, Builder.Storage, Unranked, BodyOk, SymbolsOk, RowOk, InRange, Used;
    }

    /** The state at a complete block: its column and counts leave the machine. */
    method TakeBuilder() returns (b: Builder)
      requires Valid() && phase.Output? && builder != null
      modifies this`builder
      ensures Valid() && builder == null && b == old(builder) && b.Storage() && b.limit == 100000 * phase.hd.level
      ensures body.hd == phase.hd && phase.column == Unranked(b.used, b.col)
    {
      hide Sound, Building, InGroup, Builder.Storage, Builder.Valid, Unranked;
      b := builder;
      builder := null;
    }

    /** s->state = BZ_X_BLKHDR_1 once a block is delivered. */
    method NextBlock()
      requires Valid() && phase.Output? && builder == null
      modifies this`ctl, this`phase
      ensures Valid() && phase == BlkHdr(old(phase.hd.level), 0)
    {
      hide Unranked;
      ctl, phase := Parsing(BlkHdr(body.hd.level, 0)), BlkHdr(body.hd.level, 0);
    }
  }

  // ---- driven by the caller's input ----

  /** One request: answered and followed up, or left standing for want of input. */
  method Serve(br: BitReader, m: Machine, n: nat, input: seq<byte>, pos: nat) returns (ok: bool, pos': nat)
    requires br.Valid() && m.Valid() && Lean(m.phase, br.live) && pos <= |input| && 0 < n == Need(m.phase) <= 20
    modifies br, m.Repr()
    ensures br.Valid() && m.Valid() && Lean(m.phase, br.live) && pos <= pos' <= |input|
    ensures Run(m.phase, Unused(br, input, pos')) == Run(old(m.phase), old(Unused(br, input, pos)))
    ensures ok ==> |Unused(br, input, pos')| < |old(Unused(br, input, pos))| && (m.phase.Output? ==> m.builder != null)
    ensures !ok ==> m.phase == old(m.phase) && pos' == |input| && |br.live| < Need(m.phase)
    ensures !ok ==> Run(m.phase, br.live) == (m.phase, br.live)
    ensures m.builder == old(m.builder) || (m.builder != null && fresh(m.builder.Repr()))
  {
    hide Step, Need, Sound, Run, ToNat, BytesToBits, Machine.Valid;
    ghost var before, p := br.live, m.phase;
    var v;
    ok, v, pos' := br.GetBits(n, input, pos);
    ghost var all := before + BytesToBits(input[pos..pos']);
    SplitRest(before, input, pos, pos');
    NoBits(0);
    if ok {
      assert pos' == pos ==> input[pos..pos'] == [] && all == before;
      RunOne(p, all, BytesToBits(input[pos'..]));
      m.Answer(v);
    } else {
      assert input[pos'..] == [];
      assert all + [] == all;
      RunStuck(p, all);
    }
  }

  lemma Fetchable(m: Machine)
    requires m.Valid()
    ensures Need(m.phase) <= 20
  {
    hide Need;
    NeedBounded(m.phase);
  }

  /** BZ2_decompress up to the point where it returns: it wants input, has a block, or has ended. */
  method Resume(br: BitReader, m: Machine, input: seq<byte>, pos: nat) returns (pos': nat)
    requires br.Valid() && m.Valid() && Lean(m.phase, br.live) && pos <= |input|
    modifies br, m.Repr()
    ensures br.Valid() && m.Valid() && Lean(m.phase, br.live) && pos <= pos' <= |input|
    ensures (m.phase, Unused(br, input, pos')) == Run(old(m.phase), old(Unused(br, input, pos)))
    ensures Need(m.phase) != 0 ==> pos' == |input| && |br.live| < Need(m.phase)
    ensures m.phase.Output? && !old(m.phase.Output?) ==> m.builder != null
    ensures m.builder == old(m.builder) || (m.builder != null && fresh(m.builder.Repr()))
  {
    hide Step, Need, Sound, Run, Unused, Lean, BitReader.Valid, Machine.Valid;
    pos' := pos;
    Fetchable(m);
    var n := m.Request();
    while n != 0
      invariant br.Valid() && m.Valid() && n == Need(m.phase) <= 20 && Lean(m.phase, br.live) && pos <= pos' <= |input|
      invariant Run(m.phase, Unused(br, input, pos')) == Run(old(m.phase), old(Unused(br, input, pos)))
      invariant m.phase.Output? && !old(m.phase.Output?) ==> m.builder != null
      invariant m.builder == old(m.builder) || (m.builder != null && fresh(m.builder.Repr()))
      decreases |Unused(br, input, pos')|
    {
      var ok;
      ok, pos' := Serve(br, m, n, input, pos');
      if !ok {
        StillUnused(br, input, pos');
        return;
      }
      Fetchable(m);
      n := m.Request();
    }
    RunStuck(m.phase, Unused(br, input, pos'));
  }

  lemma StillUnused(br: BitReader, input: seq<byte>, pos: nat)
    requires pos == |input|
    ensures Unused(br, input, pos) == br.live
  {
    NoBits(0);
    assert input[pos..] == [];
    assert br.live + [] == br.live;
  }

  /** The bit that ends the last row of code lengths. */
  predicate EndsRows(p: Phase, v: nat) {
    p.Coding2? && v == 0 && |p.row| + 1 == AlphaSize(p.body.used) && |p.body.lens| + 1 == p.nGroups
  }

  lemma LastRow(p: Phase, v: nat)
    requires Sound(p) && Sound(Step(p, v)) && EndsRows(p, v)
    ensures var b := p.body.(lens := p.body.lens + [p.row + [p.curr]]);
      BodyOk(b, |b.lens|) && Step(p, v) == NextSymbol(b, 0, Idle(Range(256), []))
  {
    hide NextSymbol, Used;
  }

  /** The bit that ends the last selector. */
  predicate EndsSelectors(p: Phase, v: nat) {
    p.Selector3? && v == 0 && |p.mtf| + 1 == p.nSelectors
  }

  lemma LastSelector(p: Phase, v: nat)
    requires Sound(p) && EndsSelectors(p, v)
    ensures p.nGroups <= MAX_GROUPS && forall i :: 0 <= i <= |p.mtf| ==> (p.mtf + [p.j])[i] < p.nGroups
    ensures Step(p, v) == Coding1(Body(p.hd, p.used, Selectors(Range(p.nGroups), p.mtf + [p.j]), []), p.nGroups)
  {
    hide Selectors, Used;
  }

  lemma {:induction false} GroupOutside(hd: Header, groups: seq<bool>, m: seq<bool>)
    ensures Outside(NextGroup(hd, groups, m))
    decreases 256 - |m|
  {
    hide Used;
    if |m| < 256 && |m| % 16 == 0 && |m| / 16 < |groups| && !groups[|m| / 16] {
      GroupOutside(hd, groups, m + seq(16, _ => false));
    }
  }

  lemma StaysOutside(p: Phase, v: nat)
    requires Sound(p) && Outside(p) && !EndsRows(p, v)
    ensures Outside(Step(p, v))
  {
    hide NextGroup, Used, Selectors, CheckCode;
    match p
    case Mapping1(hd, groups) => GroupOutside(hd, groups + [v == 1], []);
    case Mapping2(hd, groups, m) => GroupOutside(hd, groups, m + [v == 1]);
    case _ =>
  }

  lemma SoundFirst(b: Body, count: nat, row: seq<byte>, s: MtfList, t: DecodeTable, v: nat)
    requires Sound(Mtf1(b, count, row, s)) && TableOf(t, row)
    ensures BodyOk(b, |b.lens|) && Coming(row, b, t.minLen, v)
    ensures Step(Mtf1(b, count, row, s), v) == CheckCode(b, count, row, s, t.minLen, v)
  {
    hide CheckCode, MinLen, MaxLen, LimitAt, TableFor, MtfOk;
    RowNeed(b, row, s);
  }

  lemma SoundLater(b: Body, count: nat, row: seq<byte>, s: MtfList, zn: nat, zvec: nat, v: nat)
    requires Sound(Mtf2(b, count, row, s, zn, zvec))
    ensures BodyOk(b, |b.lens|) && Coming(row, b, zn, 2 * zvec + v)
    ensures Step(Mtf2(b, count, row, s, zn, zvec), v) == CheckCode(b, count, row, s, zn, 2 * zvec + v)
  {
    hide CheckCode, MinLen, LimitAt, MtfOk;
  }

  /** `zn` bits of a code of `row` were read, and its shorter prefixes failed the limit test. */
  ghost predicate Coming(row: seq<byte>, b: Body, zn: nat, zvec: nat) {
    && |row| == AlphaSize(b.used) && InRange(row) && MinLen(row) <= zn <= 21
    && (zn > MinLen(row) ==> zvec >= 2 * (LimitAt(row, zn - 1) + 1))
  }

  /** The decision on limit, base and perm, as the machine takes it. */
  method LookUp(t: DecodeTable, ghost row: seq<byte>, ghost b: Body, zn: nat, zvec: nat) returns (f: Found)
    requires TableOf(t, row) && Coming(row, b, zn, zvec)
    ensures f == if zn > 20 then Corrupt else if zvec > LimitAt(row, zn) then Longer
                 else match Lookup(row, zn, zvec) case Some(s) => Symbol(s) case None => Corrupt
    ensures f.Symbol? ==> f.s < AlphaSize(b.used)
  {
    hide LimitAt, Lookup, MinLen, MaxLen, TableFor;
    f := TryCode(t, row, zn, zvec);
    if f.Symbol? {
      LookupInRange(row, zn, zvec);
      LookupSymbol(row, zn, zvec);
    }
  }

  lemma CountOn(count: nat, groupNo: int, groupPos: nat)
    requires groupNo == count / GROUP_SIZE && groupPos == GROUP_SIZE - 1 - count % GROUP_SIZE
    ensures Waiting(count + 1, groupNo, groupPos)
  {
  }

  lemma BodyRows(b: Body)
    requires BodyOk(b, |b.lens|)
    ensures |b.lens| > 0 && Used(b.used, 256) != []
    ensures forall t :: 0 <= t < |b.lens| ==> b.lens[t] != [] && InRange(b.lens[t]) && |b.lens[t]| <= MAX_ALPHA
  {
    AlphaBounds(b.used);
  }

  /** groupNo and groupPos when symbol `count` is about to begin. */
  ghost predicate Waiting(count: nat, groupNo: int, groupPos: nat) {
    groupPos == (GROUP_SIZE - count % GROUP_SIZE) % GROUP_SIZE && groupNo == (count + GROUP_SIZE - 1) / GROUP_SIZE - 1
  }

  lemma WaitingFor(count: nat, groupNo: int, groupPos: nat)
    requires Waiting(count, groupNo, groupPos)
    ensures groupPos == 0 ==> groupNo + 1 == count / GROUP_SIZE && count % GROUP_SIZE == 0
    ensures groupPos > 0 ==> groupNo == count / GROUP_SIZE && groupPos - 1 == GROUP_SIZE - 1 - count % GROUP_SIZE
  {
  }

  lemma SelectorNames(b: Body)
    requires BodyOk(b, |b.lens|)
    ensures forall i :: 0 <= i < |b.sel| ==> b.sel[i] < |b.lens|
  {
  }
}
