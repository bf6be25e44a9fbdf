/** What the bits of a deflate block's data stand for: section 3.2.5 of RFC 1951, symbol by symbol. */
module DeflateBits {
  import opened Base
  import opened BitString
  import opened CanonicalCode
  import opened HistoryWindow
  import opened InflateTable
  import opened LsbCode

  /** A code a block may come with: complete, a single code of one bit, or none. */
  ghost predicate CodeOk(ty: CodeType, lens: seq<byte>) {
    && |lens| <= MaxSymbols(ty) && (forall s :: 0 <= s < |lens| ==> lens[s] <= MAXBITS)
    && Kraft(lens, MAXBITS) <= Pow2(MAXBITS) && (Kraft(lens, MAXBITS) < Pow2(MAXBITS) ==> OnlyOneBit(lens))
  }

  // ---- one symbol ----

  /** The symbol below `k` whose code the bits begin with. */
  ghost function FindCode(lens: seq<byte>, b: Bits, k: nat): (r: Option<nat>)
    requires k <= |lens|
    ensures r.Some? ==> r.value < k && lens[r.value] > 0 && CodeBits(lens, r.value) <= b
  {
    if k == 0 then None
    else if lens[k - 1] > 0 && CodeBits(lens, k - 1) <= b then Some(k - 1)
    else FindCode(lens, b, k - 1)
  }

  datatype Reading = Starved | NoSuchCode | Symbol(s: nat)

  /** The symbol that comes next; an incomplete code has one bit that begins none. */
  ghost function ReadSymbol(lens: seq<byte>, b: Bits): (r: Reading)
    ensures r.Symbol? ==> r.s < |lens| && lens[r.s] > 0 && CodeBits(lens, r.s) <= b
  {
    match FindCode(lens, b, |lens|)
    case Some(s) => Symbol(s)
    case None => if b != [] && Kraft(lens, MAXBITS) < Pow2(MAXBITS) then NoSuchCode else Starved
  }

  lemma {:induction false} FindsSome(lens: seq<byte>, b: Bits, s: nat, k: nat)
    requires s < k <= |lens| && lens[s] > 0 && CodeBits(lens, s) <= b
    ensures FindCode(lens, b, k).Some?
  {
    hide CodeBits;
    if s < k - 1 {
      FindsSome(lens, b, s, k - 1);
    }
  }

  lemma OneCode(ty: CodeType, lens: seq<byte>, b: Bits, s: nat, r: nat)
    requires CodeOk(ty, lens) && s < |lens| && r < |lens| && lens[s] > 0 && lens[r] > 0
    requires CodeBits(lens, s) <= b && CodeBits(lens, r) <= b
    ensures s == r
  {
    hide CodeBits, Kraft, Pow2;
    var x, y := CodeBits(lens, s), CodeBits(lens, r);
    assert x == b[..|x|] && y == b[..|y|];
    if s != r {
      if |x| <= |y| {
        assert y[..|x|] == x;
        PrefixFree(lens, MAXBITS, s, r);
      } else {
        assert x[..|y|] == y;
        PrefixFree(lens, MAXBITS, r, s);
      }
    }
  }

  /** Bits that begin with the code of `s` are read as `s`. */
  lemma ReadsCode(ty: CodeType, lens: seq<byte>, b: Bits, s: nat)
    requires CodeOk(ty, lens) && s < |lens| && lens[s] > 0 && CodeBits(lens, s) <= b
    ensures ReadSymbol(lens, b) == Symbol(s)
  {
    hide CodeBits, Kraft, Pow2;
    FindsSome(lens, b, s, |lens|);
    OneCode(ty, lens, b, s, FindCode(lens, b, |lens|).value);
  }

  /** More bits do not change what was read. */
  lemma ReadMore(ty: CodeType, lens: seq<byte>, a: Bits, b: Bits)
    requires CodeOk(ty, lens) && ReadSymbol(lens, a) != Starved
    ensures ReadSymbol(lens, a + b) == ReadSymbol(lens, a)
  {
    hide CodeBits, Kraft, Pow2;
    match ReadSymbol(lens, a)
    case Symbol(s) =>
      assert CodeBits(lens, s) <= a <= a + b;
      ReadsCode(ty, lens, a + b, s);
    case NoSuchCode =>
      var f := FindCode(lens, a + b, |lens|);
      if f.Some? {
        var code := CodeBits(lens, f.value);
        assert |code| == 1 && code <= a + b;
        assert code[0] == (a + b)[0] == a[0];
        assert code <= a;
        FindsSome(lens, a, f.value, |lens|);
      }
  }

  /** What only more bits could tell takes some of them. */
  lemma ReadBeyond(lens: seq<byte>, a: Bits, b: Bits)
    requires ReadSymbol(lens, a) == Starved
    ensures ReadSymbol(lens, a + b).Symbol? ==> lens[ReadSymbol(lens, a + b).s] > |a|
    ensures ReadSymbol(lens, a + b) == NoSuchCode ==> a == []
  {
    hide CodeBits, Kraft, Pow2;
    match ReadSymbol(lens, a + b)
    case Symbol(s) =>
      var code := CodeBits(lens, s);
      if |code| <= |a| {
        assert code == (a + b)[..|code|] == a[..|code|];
        FindsSome(lens, a, s, |lens|);
      }
    case _ =>
  }

  // ---- from symbol to symbol ----

  /** The literal/length code and the distance code of a block. */
  datatype CodePair = CodePair(len: seq<byte>, dist: seq<byte>)

  ghost predicate CodesOk(c: CodePair) {
    CodeOk(Lens, c.len) && CodeOk(Dists, c.dist)
  }

  /**
   * Where inflate stands in a block's data: at a length or literal code, its extra bits, a distance code, its extra
   * bits, with a literal or a match to put out, behind the end-of-block code, or at an error.
   */
  datatype Mode =
    | Len
    | LenExt(length: nat, extra: nat)
    | Dist(length: nat)
    | DistExt(length: nat, offset: nat, extra: nat)
    | Lit(c: byte)
    | InMatch(offset: nat, length: nat)
    | Type
    | Bad
    | TooFar(offset: nat, length: nat)

  /** The ranges the symbols allow. */
  predicate ModeOk(m: Mode) {
    match m
    case LenExt(length, extra) => 3 <= length && extra <= 5 && length + Pow2(extra) <= 259
    case Dist(length) => 3 <= length <= 258
    case DistExt(length, offset, extra) =>
      3 <= length <= 258 && 1 <= offset && extra <= 13 && offset + Pow2(extra) <= 32769
    case InMatch(offset, length) => 1 <= offset <= 32768 && 1 <= length <= 258
    case TooFar(offset, length) => 1 <= offset <= 32768 && 1 <= length <= 258
    case _ => true
  }

  /** What a literal/length symbol leads to. */
  function AfterLen(s: nat): (m: Mode)
    requires s < 288
  {
    if s < 256 then Lit(s)
    else if s == 256 then Type
    else if LEXT[s - 257] >= 64 then Bad
    else LenExt(LBASE[s - 257], LEXT[s - 257] % 16)
  }

  /** What a distance symbol leads to. */
  function AfterDist(length: nat, s: nat): (m: Mode)
    requires s < 32
  {
    if DEXT[s] >= 64 then Bad else DistExt(length, DBASE[s], DEXT[s] % 16)
  }

  lemma SmallPowers()
    ensures Pow2(0) == 1 && Pow2(1) == 2 && Pow2(2) == 4 && Pow2(3) == 8 && Pow2(4) == 16 && Pow2(5) == 32
    ensures Pow2(6) == 64 && Pow2(7) == 128 && Pow2(8) == 256 && Pow2(9) == 512 && Pow2(10) == 1024
    ensures Pow2(11) == 2048 && Pow2(12) == 4096 && Pow2(13) == 8192
  {
    assert Pow2(5) == 32 && Pow2(7) == 4 * Pow2(5);
    assert Pow2(9) == 4 * Pow2(7) && Pow2(11) == 4 * Pow2(9) && Pow2(13) == 4 * Pow2(11);
  }

  /** The extra bits of a length code, as section 3.2.5 of RFC 1951 lists them. */
  lemma LengthExtra(k: nat)
    requires k < 31
    ensures LEXT[k] == if k < 29 then 16 + (if k < 8 || k == 28 then 0 else k / 4 - 1) else if k == 29 then 78 else 68
  {
  }

  lemma LengthBase(k: nat)
    requires k < 29
    ensures 3 <= LBASE[k] <= (if k < 8 || k == 28 then 258 else if k < 12 then 17 else if k < 16 then 31
                              else if k < 20 then 59 else if k < 24 then 115 else 227)
  {
  }

  lemma AfterLenOk(s: nat)
    requires s < 288
    ensures ModeOk(AfterLen(s))
  {
    hide Pow2, LEXT, LBASE;
    SmallPowers();
    if s > 256 {
      LengthExtra(s - 257);
      if s < 286 {
        LengthBase(s - 257);
      }
    }
  }

  /** The extra bits of a distance code. */
  lemma DistExtra(k: nat)
    requires k < 32
    ensures DEXT[k] == if k < 30 then 16 + (if k < 4 then 0 else k / 2 - 1) else 64
  {
  }

  lemma DistBase(k: nat)
    requires k < 30
    ensures 1 <= DBASE[k] <= if k < 26 then 6145 else 24577
  {
  }

  lemma AfterDistOk(length: nat, s: nat)
    requires s < 32 && 3 <= length <= 258
    ensures ModeOk(AfterDist(length, s))
  {
    hide Pow2, DEXT, DBASE;
    SmallPowers();
    DistExtra(s);
    if s < 30 {
      DistBase(s);
    }
  }

  /** What the bits at hand lead to, and how many of them are used; nothing if they are too few. */
  ghost function Next(c: CodePair, m: Mode, b: Bits): (r: Option<(Mode, nat)>)
    requires CodesOk(c)
    ensures r.Some? ==> r.value.1 <= |b|
  {
    match m
    case Len =>
      (match ReadSymbol(c.len, b)
       case Starved => None
       case NoSuchCode => Some((Bad, 1))
       case Symbol(s) => Some((AfterLen(s), c.len[s])))
    case LenExt(length, extra) =>
      if |b| < extra then None else Some((Dist(length + LsbNat(b[..extra])), extra))
    case Dist(length) =>
      (match ReadSymbol(c.dist, b)
       case Starved => None
       case NoSuchCode => Some((Bad, 1))
       case Symbol(s) => Some((AfterDist(length, s), c.dist[s])))
    case DistExt(length, offset, extra) =>
      if |b| < extra then None else Some((InMatch(offset + LsbNat(b[..extra]), length), extra))
    case _ => None
  }

  /** Waiting for bits. */
  predicate AtBits(m: Mode) {
    m.Len? || m.LenExt? || m.Dist? || m.DistExt?
  }

  lemma NextOk(c: CodePair, m: Mode, b: Bits)
    requires CodesOk(c) && ModeOk(m) && Next(c, m, b).Some?
    ensures ModeOk(Next(c, m, b).value.0)
  {
    hide ReadSymbol, LsbNat, Pow2, CodeOk, AfterLen, AfterDist;
    match m
    case Len => SymbolsKnown(c, b); NextLenOk(c, b);
    case Dist(length) => SymbolsKnown(c, b); NextDistOk(c, length, b);
    case LenExt(_, extra) => LsbLess(b[..extra]);
    case DistExt(_, _, extra) => LsbLess(b[..extra]);
  }

  lemma SymbolsKnown(c: CodePair, b: Bits)
    requires CodesOk(c)
    ensures ReadSymbol(c.len, b).Symbol? ==> ReadSymbol(c.len, b).s < 288
    ensures ReadSymbol(c.dist, b).Symbol? ==> ReadSymbol(c.dist, b).s < 32
  {
    hide Kraft, Pow2, CodeBits;
  }

  lemma NextLenOk(c: CodePair, b: Bits)
    requires CodesOk(c) && ReadSymbol(c.len, b) != Starved
    ensures ModeOk(Next(c, Len, b).value.0)
  {
    hide ReadSymbol, AfterLen, CodeOk, ModeOk;
    SymbolsKnown(c, b);
    match ReadSymbol(c.len, b)
    case Symbol(s) => AfterLenOk(s);
    case _ => BadIsOk();
  }

  lemma NextDistOk(c: CodePair, length: nat, b: Bits)
    requires CodesOk(c) && ReadSymbol(c.dist, b) != Starved && 3 <= length <= 258
    ensures ModeOk(Next(c, Dist(length), b).value.0)
  {
    hide ReadSymbol, AfterDist, CodeOk, ModeOk;
    SymbolsKnown(c, b);
    match ReadSymbol(c.dist, b)
    case Symbol(s) => AfterDistOk(length, s);
    case _ => BadIsOk();
  }

  lemma BadIsOk()
    ensures ModeOk(Bad)
  {
  }

  /** More bits do not change where the first ones lead. */
  lemma NextMore(c: CodePair, m: Mode, a: Bits, b: Bits)
    requires CodesOk(c) && Next(c, m, a).Some?
    ensures Next(c, m, a + b) == Next(c, m, a)
  {
    hide ReadSymbol, CodeOk, AfterLen, AfterDist, LsbNat;
    match m
    case Len => ReadMore(Lens, c.len, a, b);
    case Dist(_) => ReadMore(Dists, c.dist, a, b);
    case LenExt(_, extra) => assert (a + b)[..extra] == a[..extra];
    case DistExt(_, _, extra) => assert (a + b)[..extra] == a[..extra];
  }

  // ---- a whole block's data ----

  /** More bits are wanted, the block is over (with the bits behind it), or an error is reported. */
  datatype Ending = Wanting | Over(rest: Bits) | Invalid | BeforeStart

  datatype Outcome = Outcome(text: seq<byte>, ending: Ending)

  function Rank(m: Mode): nat {
    match m
    case LenExt(_, _) => 5
    case Dist(_) => 4
    case DistExt(_, _, _) => 3
    case InMatch(_, _) => 2
    case TooFar(_, _) => 1
    case Lit(_) => 1
    case _ => 0
  }

  lemma NextProgress(c: CodePair, m: Mode, b: Bits)
    requires CodesOk(c) && Next(c, m, b).Some?
    ensures var (m', n) := Next(c, m, b).value; n > 0 || Rank(m') < Rank(m)
  {
    hide LsbNat, CodeBits, Kraft, Pow2;
  }

  /** All that becomes of a block once `h` is out, from mode `m` on: each match copied from all output so far. */
  ghost function Ahead(c: CodePair, h: seq<byte>, m: Mode, b: Bits): Outcome
    requires CodesOk(c)
    decreases |b|, Rank(m)
  {
    match m
    case Lit(x) => Ahead(c, h + [x], Len, b)
    case InMatch(offset, length) => Copied(c, h, offset, length, b)
    case TooFar(offset, length) => Copied(c, h, offset, length, b)
    case Type => Outcome(h, Over(b))
    case Bad => Outcome(h, Invalid)
    case _ =>
      var next := Next(c, m, b);
      if next == None then Outcome(h, Wanting)
      else
        NextProgress(c, m, b);
        Ahead(c, h, next.value.0, b[next.value.1..])
  }

  /** A match, and what follows it. */
  ghost function Copied(c: CodePair, h: seq<byte>, offset: nat, length: nat, b: Bits): Outcome
    requires CodesOk(c)
    decreases |b|, 1, 0
  {
    if 0 < offset <= |h| then Ahead(c, Naive(h, offset, length), Len, b) else Outcome(h, BeforeStart)
  }

  /** The text so far is never taken back. */
  lemma {:induction false} AheadKeeps(c: CodePair, h: seq<byte>, m: Mode, b: Bits)
    requires CodesOk(c)
    ensures h <= Ahead(c, h, m, b).text
    decreases |b|, Rank(m)
  {
    hide Next, CodesOk, Naive;
    match m
    case Lit(x) => AheadKeeps(c, h + [x], Len, b);
    case InMatch(offset, length) =>
      if 0 < offset <= |h| {
        AheadKeeps(c, Naive(h, offset, length), Len, b);
      }
    case TooFar(offset, length) =>
      if 0 < offset <= |h| {
        AheadKeeps(c, Naive(h, offset, length), Len, b);
      }
    case Type =>
    case Bad =>
    case _ =>
      var next := Next(c, m, b);
      if next != None {
        NextProgress(c, m, b);
        AheadKeeps(c, h, next.value.0, b[next.value.1..]);
      }
  }

  // ---- how far back the matches reach ----

  function Max(a: nat, b: nat): nat {
    if a < b then b else a
  }

  /** The farthest distance within the output that is met on the way. */
  ghost function Farthest(c: CodePair, h: seq<byte>, m: Mode, b: Bits): nat
    requires CodesOk(c)
    decreases |b|, Rank(m)
  {
    match m
    case Lit(x) => Farthest(c, h + [x], Len, b)
    case InMatch(offset, length) => FarCopied(c, h, offset, length, b)
    case TooFar(offset, length) => FarCopied(c, h, offset, length, b)
    case Type => 0
    case Bad => 0
    case _ =>
      var next := Next(c, m, b);
      if next == None then 0
      else
        NextProgress(c, m, b);
        Farthest(c, h, next.value.0, b[next.value.1..])
  }

  ghost function FarCopied(c: CodePair, h: seq<byte>, offset: nat, length: nat, b: Bits): nat
    requires CodesOk(c)
    decreases |b|, 1, 0
  {
    if 0 < offset <= |h| then Max(offset, Farthest(c, Naive(h, offset, length), Len, b)) else 0
  }

  /**
   * Between two points of the reading nothing is lost or invented: what is ahead of the later one is what was ahead
   * of the earlier, and no distance is met behind it that was not.
   */
  ghost predicate Leads(c: CodePair, h0: seq<byte>, m0: Mode, b0: Bits, h: seq<byte>, m: Mode, b: Bits)
    requires CodesOk(c)
  {
    Ahead(c, h0, m0, b0) == Ahead(c, h, m, b) && Farthest(c, h, m, b) <= Farthest(c, h0, m0, b0)
  }

  lemma LeadsOn(c: CodePair, h0: seq<byte>, m0: Mode, b0: Bits, h1: seq<byte>, m1: Mode, b1: Bits, h2: seq<byte>,
          m2: Mode, b2: Bits)
    requires CodesOk(c) && Leads(c, h0, m0, b0, h1, m1, b1) && Leads(c, h1, m1, b1, h2, m2, b2)
    ensures Leads(c, h0, m0, b0, h2, m2, b2)
  {
    hide Ahead, Farthest, CodesOk;
  }

  /** What reading from `m0` to `m` used of the bits: the rest of the story and its distances are the same. */
  ghost predicate Same(c: CodePair, text: seq<byte>, m0: Mode, b0: Bits, m: Mode, b: Bits)
    requires CodesOk(c)
  {
    Ahead(c, text, m0, b0) == Ahead(c, text, m, b) && Farthest(c, text, m0, b0) == Farthest(c, text, m, b)
  }

  lemma PartsMeet(c: CodePair, text: seq<byte>, m0: Mode, b0: Bits, m1: Mode, b1: Bits, m2: Mode, b2: Bits)
    requires CodesOk(c) && Same(c, text, m0, b0, m1, b1) && Same(c, text, m1, b1, m2, b2)
    ensures Same(c, text, m0, b0, m2, b2)
  {
  }

  /** One step along the bits. */
  lemma AheadNext(c: CodePair, h: seq<byte>, m: Mode, b: Bits)
    requires CodesOk(c) && AtBits(m) && Next(c, m, b).Some?
    ensures var (m', n) := Next(c, m, b).value;
      Ahead(c, h, m, b) == Ahead(c, h, m', b[n..]) && Farthest(c, h, m, b) == Farthest(c, h, m', b[n..])
  {
    hide Next, CodesOk;
  }

  /** A literal put out. */
  lemma LiteralOut(c: CodePair, h: seq<byte>, x: byte, b: Bits)
    requires CodesOk(c)
    ensures Leads(c, h, Lit(x), b, h + [x], Len, b) && Farthest(c, h, Lit(x), b) == Farthest(c, h + [x], Len, b)
  {
    hide Next, CodesOk;
  }

  /** A match put out: its distance is passed. */
  lemma MatchOut(c: CodePair, h: seq<byte>, offset: nat, length: nat, b: Bits)
    requires CodesOk(c) && 0 < offset <= |h|
    ensures Ahead(c, h, InMatch(offset, length), b) == Ahead(c, Naive(h, offset, length), Len, b)
    ensures Farthest(c, h, InMatch(offset, length), b) == Max(offset, Farthest(c, Naive(h, offset, length), Len, b))
  {
    hide Next, CodesOk, Naive;
  }

  /** A match that reaches before the first byte. */
  lemma MatchBad(c: CodePair, h: seq<byte>, offset: nat, length: nat, b: Bits)
    requires CodesOk(c) && !(0 < offset <= |h|)
    ensures Ahead(c, h, InMatch(offset, length), b) == Outcome(h, BeforeStart)
    ensures Farthest(c, h, InMatch(offset, length), b) == 0
  {
    hide Next, CodesOk, Naive;
  }

  /** Part of a match now, the rest later: the distance met is passed when the match is over. */
  lemma CopyPart(c: CodePair, h: seq<byte>, offset: nat, length: nat, copy: nat, b: Bits)
    requires CodesOk(c) && 0 < offset <= |h| && copy <= length
    ensures var h' := Naive(h, offset, copy); var m' := if copy == length then Len else InMatch(offset, length - copy);
      && Leads(c, h, InMatch(offset, length), b, h', m', b)
      && Farthest(c, h, InMatch(offset, length), b) == Max(offset, Farthest(c, h', m', b))
  {
    hide Next, CodesOk, Naive, Ahead, Farthest;
    MatchOut(c, h, offset, length, b);
    if copy < length {
      NaiveAdd(h, offset, copy, length - copy);
      MatchOut(c, Naive(h, offset, copy), offset, length - copy, b);
    }
  }

  /** A match refused is still what the bits say. */
  lemma RefusedLeads(c: CodePair, h: seq<byte>, offset: nat, length: nat, b: Bits)
    requires CodesOk(c)
    ensures Leads(c, h, InMatch(offset, length), b, h, TooFar(offset, length), b)
    ensures Farthest(c, h, InMatch(offset, length), b) == Farthest(c, h, TooFar(offset, length), b)
    ensures 0 < offset <= |h| ==> offset <= Farthest(c, h, TooFar(offset, length), b)
  {
    hide Next, CodesOk, Naive;
  }

  /** Where the reading stops no distance is ahead. */
  lemma NoneAhead(c: CodePair, h: seq<byte>, m: Mode, b: Bits)
    requires CodesOk(c) && (AtBits(m) ==> Next(c, m, b) == None) && (m.TooFar? ==> m.offset > |h|)
    requires AtBits(m) || m.Type? || m.Bad? || m.TooFar?
    ensures Farthest(c, h, m, b) == 0
  {
    hide Next, CodesOk;
  }

  /** No distance is beyond the largest window. */
  lemma {:induction false} FarthestBound(c: CodePair, h: seq<byte>, m: Mode, b: Bits)
    requires CodesOk(c) && ModeOk(m)
    ensures Farthest(c, h, m, b) <= 32768
    decreases |b|, Rank(m)
  {
    hide Next, CodesOk, Naive, Pow2;
    LenOk();
    match m
    case Lit(x) => FarthestBound(c, h + [x], Len, b);
    case InMatch(offset, length) =>
      if 0 < offset <= |h| {
        FarthestBound(c, Naive(h, offset, length), Len, b);
      }
    case TooFar(offset, length) =>
      if 0 < offset <= |h| {
        FarthestBound(c, Naive(h, offset, length), Len, b);
      }
    case Type =>
    case Bad =>
    case _ =>
      var next := Next(c, m, b);
      if next != None {
        NextProgress(c, m, b);
        NextOk(c, m, b);
        FarthestBound(c, h, next.value.0, b[next.value.1..]);
      }
  }

  lemma LenOk()
    ensures ModeOk(Len)
  {
  }
}
