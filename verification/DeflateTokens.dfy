/** Literals and matches as a deflate block spells them: every spelling is read back. */
module DeflateTokens {
  import opened Base
  import opened BitString
  import opened CanonicalCode
  import opened DeflateBits
  import opened HistoryWindow
  import opened InflateTable
  import opened LsbCode

  // ---- what a list of tokens stands for ----

  datatype Token = Literal(c: byte) | Copy(offset: nat, length: nat)

  datatype Decoded = Decoded(text: seq<byte>, bad: bool)

  function Apply(d: Decoded, x: Token): (r: Decoded)
    ensures d.text <= r.text
  {
    if d.bad then d
    else match x
      case Literal(c) => Decoded(d.text + [c], false)
      case Copy(offset, length) =>
        if offset == 0 || offset > |d.text| then Decoded(d.text, true)
        else Decoded(Naive(d.text, offset, length), false)
  }

  /** All tokens in turn, up to the first whose distance reaches before the first byte. */
  function Feed(d: Decoded, t: seq<Token>): (r: Decoded)
    ensures d.text <= r.text && (d.bad ==> r == d)
    decreases |t|
  {
    if t == [] then d else Feed(Apply(d, t[0]), t[1..])
  }

  // ---- how a token is spelled ----

  /** A byte, or a length and a distance: for each its symbol and the value of its extra bits. */
  datatype Item = Byte(c: byte) | Pair(ls: nat, le: nat, ds: nat, de: nat)

  /** The extra bits of a length symbol. */
  function LengthBits(ls: nat): nat
    requires 257 <= ls < 286
  {
    LEXT[ls - 257] % 16
  }

  function DistBits(ds: nat): nat
    requires ds < 30
  {
    DEXT[ds] % 16
  }

  function LengthValue(ls: nat, le: nat): nat
    requires 257 <= ls < 286
  {
    LBASE[ls - 257] + le
  }

  function DistValue(ds: nat, de: nat): nat
    requires ds < 30
  {
    DBASE[ds] + de
  }

  predicate HasCode(lens: seq<byte>, s: nat) {
    s < |lens| && lens[s] > 0
  }

  /** The codes have the symbols, and the extra bits hold the values. */
  predicate ItemOk(c: CodePair, x: Item) {
    match x
    case Byte(b) => HasCode(c.len, b)
    case Pair(ls, le, ds, de) =>
      && 257 <= ls < 286 && HasCode(c.len, ls) && le < Pow2(LengthBits(ls))
      && ds < 30 && HasCode(c.dist, ds) && de < Pow2(DistBits(ds))
  }

  function ItemBits(c: CodePair, x: Item): Bits
    requires ItemOk(c, x)
  {
    match x
    case Byte(b) => CodeBits(c.len, b)
    case Pair(ls, le, ds, de) =>
      CodeBits(c.len, ls) + (LsbBits(le, LengthBits(ls)) + (CodeBits(c.dist, ds) + LsbBits(de, DistBits(ds))))
  }

  function TokenOf(c: CodePair, x: Item): Token
    requires ItemOk(c, x)
  {
    match x
    case Byte(b) => Literal(b)
    case Pair(ls, le, ds, de) => Copy(DistValue(ds, de), LengthValue(ls, le))
  }

  predicate ItemsOk(c: CodePair, x: seq<Item>) {
    forall i :: 0 <= i < |x| ==> ItemOk(c, x[i])
  }

  function Spelled(c: CodePair, x: seq<Item>): Bits
    requires ItemsOk(c, x)
  {
    if x == [] then [] else ItemBits(c, x[0]) + Spelled(c, x[1..])
  }

  function Tokens(c: CodePair, x: seq<Item>): seq<Token>
    requires ItemsOk(c, x)
  {
    if x == [] then [] else [TokenOf(c, x[0])] + Tokens(c, x[1..])
  }

  // ---- reading it back ----

  /** A code is read as its symbol. */
  lemma LenReads(c: CodePair, text: seq<byte>, s: nat, rest: Bits)
    requires CodesOk(c) && s < 288 && HasCode(c.len, s)
    ensures Same(c, text, Len, CodeBits(c.len, s) + rest, AfterLen(s), rest)
  {
    hide CodeOk, CodeBits, ReadSymbol, AfterLen, Ahead, Farthest;
    var b := CodeBits(c.len, s) + rest;
    ReadsCode(Lens, c.len, b, s);
    assert b[|CodeBits(c.len, s)|..] == rest;
    AheadNext(c, text, Len, b);
  }

  lemma DistReads(c: CodePair, text: seq<byte>, length: nat, s: nat, rest: Bits)
    requires CodesOk(c) && s < 32 && HasCode(c.dist, s)
    ensures Same(c, text, Dist(length), CodeBits(c.dist, s) + rest, AfterDist(length, s), rest)
  {
    hide CodeOk, CodeBits, ReadSymbol, AfterDist, Ahead, Farthest;
    var b := CodeBits(c.dist, s) + rest;
    ReadsCode(Dists, c.dist, b, s);
    assert b[|CodeBits(c.dist, s)|..] == rest;
    AheadNext(c, text, Dist(length), b);
  }

  /** Extra bits are read as their value. */
  lemma ExtraReads(c: CodePair, text: seq<byte>, m: Mode, v: nat, rest: Bits)
    requires CodesOk(c) && (m.LenExt? || m.DistExt?) && v < Pow2(m.extra)
    ensures Same(c, text, m, LsbBits(v, m.extra) + rest,
                 if m.LenExt? then Dist(m.length + v) else InMatch(m.offset + v, m.length), rest)
  {
    hide CodesOk, LsbBits, LsbNat, Pow2, Next, Ahead, Farthest;
    var n := m.extra;
    var b := LsbBits(v, n) + rest;
    assert b[..n] == LsbBits(v, n) && b[n..] == rest;
    LsbRoundTrip(v, n);
    NextExtra(c, m, b);
    AheadNext(c, text, m, b);
  }

  lemma NextExtra(c: CodePair, m: Mode, b: Bits)
    requires CodesOk(c) && (m.LenExt? || m.DistExt?) && m.extra <= |b|
    ensures var v := LsbNat(b[..m.extra]);
      Next(c, m, b) == Some((if m.LenExt? then Dist(m.length + v) else InMatch(m.offset + v, m.length), m.extra))
  {
    hide CodesOk, LsbNat;
  }

  lemma LengthSymbol(ls: nat)
    requires 257 <= ls < 286
    ensures AfterLen(ls) == LenExt(LengthValue(ls, 0), LengthBits(ls))
  {
    hide LEXT, LBASE;
    LengthExtra(ls - 257);
  }

  lemma DistSymbol(length: nat, ds: nat)
    requires ds < 30
    ensures AfterDist(length, ds) == DistExt(length, DistValue(ds, 0), DistBits(ds))
  {
    hide DEXT, DBASE;
    DistExtra(ds);
  }

  lemma ValuesAdd(ls: nat, le: nat, ds: nat, de: nat)
    requires 257 <= ls < 286 && ds < 30
    ensures LengthValue(ls, 0) + le == LengthValue(ls, le) && DistValue(ds, 0) + de == DistValue(ds, de)
  {
  }

  /** A length and a distance are read as the match. */
  lemma PairReads(c: CodePair, text: seq<byte>, x: Item, rest: Bits)
    requires CodesOk(c) && ItemOk(c, x) && x.Pair?
    ensures Same(c, text, Len, ItemBits(c, x) + rest, InMatch(DistValue(x.ds, x.de), LengthValue(x.ls, x.le)), rest)
  {
    hide CodesOk, CodeBits, LsbBits, Pow2, Next, Ahead, Farthest, LengthValue, DistValue, LengthBits, DistBits;
    hide AfterLen, AfterDist;
    var Pair(ls, le, ds, de) := x;
    var length := LengthValue(ls, le);
    var b3 := LsbBits(de, DistBits(ds)) + rest;
    var b2 := CodeBits(c.dist, ds) + b3;
    var b1 := LsbBits(le, LengthBits(ls)) + b2;
    assert ItemBits(c, x) + rest == CodeBits(c.len, ls) + b1;
    ValuesAdd(ls, le, ds, de);
    LengthSymbol(ls);
    DistSymbol(length, ds);
    LenReads(c, text, ls, b1);
    ExtraReads(c, text, AfterLen(ls), le, b2);
    DistReads(c, text, length, ds, b3);
    ExtraReads(c, text, AfterDist(length, ds), de, rest);
  }

  /** The distance of a token. */
  function Distance(x: Token): nat {
    if x.Copy? then x.offset else 0
  }

  /** One token's bits are its text, or its error; its distance is met. */
  lemma ItemPlays(c: CodePair, text: seq<byte>, x: Item, rest: Bits)
    requires CodesOk(c) && ItemOk(c, x)
    ensures var d := Apply(Decoded(text, false), TokenOf(c, x));
      && Ahead(c, text, Len, ItemBits(c, x) + rest) ==
        (if d.bad then Outcome(d.text, BeforeStart) else Ahead(c, d.text, Len, rest))
      && Farthest(c, text, Len, ItemBits(c, x) + rest) ==
        (if d.bad then 0 else Max(Distance(TokenOf(c, x)), Farthest(c, d.text, Len, rest)))
  {
    hide CodesOk, CodeBits, Naive, Pow2, Next, LengthValue, DistValue, LengthBits, DistBits, LsbBits, Ahead, Farthest;
    match x
    case Byte(b) =>
      LenReads(c, text, b, rest);
      LiteralOut(c, text, b, rest);
    case Pair(ls, le, ds, de) =>
      PairReads(c, text, x, rest);
      var offset, length := DistValue(ds, de), LengthValue(ls, le);
      if 0 < offset <= |text| {
        MatchOut(c, text, offset, length, rest);
      } else {
        MatchBad(c, text, offset, length, rest);
      }
  }

  /** No token's distance is more than `w`. */
  predicate Within(x: seq<Token>, w: nat) {
    forall i :: 0 <= i < |x| ==> Distance(x[i]) <= w
  }

  /** So are the bits of all tokens, up to the first error. */
  lemma {:induction false} TokensPlay(c: CodePair, text: seq<byte>, x: seq<Item>, rest: Bits, w: nat)
    requires CodesOk(c) && ItemsOk(c, x)
    ensures var d := Feed(Decoded(text, false), Tokens(c, x));
      && Ahead(c, text, Len, Spelled(c, x) + rest) ==
        (if d.bad then Outcome(d.text, BeforeStart) else Ahead(c, d.text, Len, rest))
      && (Within(Tokens(c, x), w) && Farthest(c, d.text, Len, rest) <= w ==>
        Farthest(c, text, Len, Spelled(c, x) + rest) <= w)
    decreases |x|
  {
    hide CodesOk, Ahead, Farthest, Apply, ItemBits, TokenOf, ItemOk, Distance;
    if x == [] {
      assert [] + rest == rest;
    } else {
      var d := Apply(Decoded(text, false), TokenOf(c, x[0]));
      ItemPlays(c, text, x[0], Spelled(c, x[1..]) + rest);
      Associate(ItemBits(c, x[0]), Spelled(c, x[1..]), rest);
      assert Tokens(c, x)[0] == TokenOf(c, x[0]) && Tokens(c, x)[1..] == Tokens(c, x[1..]);
      if !d.bad {
        assert d == Decoded(d.text, false);
        TokensPlay(c, d.text, x[1..], rest, w);
      }
    }
  }

  /** A whole block behind any text: its tokens, then the end-of-block code. */
  lemma BlockPlays(c: CodePair, text: seq<byte>, x: seq<Item>, rest: Bits, w: nat)
    requires CodesOk(c) && ItemsOk(c, x) && HasCode(c.len, 256)
    ensures var d := Feed(Decoded(text, false), Tokens(c, x));
      var b := Spelled(c, x) + (CodeBits(c.len, 256) + rest);
      && Ahead(c, text, Len, b) == Outcome(d.text, if d.bad then BeforeStart else Over(rest))
      && (Within(Tokens(c, x), w) ==> Farthest(c, text, Len, b) <= w)
  {
    hide CodesOk, Feed, CodeBits, Next;
    var d := Feed(Decoded(text, false), Tokens(c, x));
    LenReads(c, d.text, 256, rest);
    TokensPlay(c, text, x, CodeBits(c.len, 256) + rest, w);
  }

  // ---- every token can be spelled ----

  /** The first length of a symbol, in closed form. */
  lemma LengthStart(k: nat)
    requires k < 29
    ensures LBASE[k] == if k < 8 then k + 3 else if k == 28 then 258 else (4 + k % 4) * Pow2(k / 4 - 1) + 3
  {
    hide Pow2;
    SmallPowers();
  }

  /** The ranges of the length symbols meet: each ends where the next begins, but that of symbol 284 holds 258 too. */
  lemma LengthsMeet(k: nat)
    requires k < 28
    ensures LBASE[0] == 3 && LBASE[28] == 258 && LEXT[28] == 16
    ensures LBASE[k] + Pow2(LEXT[k] % 16) == if k == 27 then 259 else LBASE[k + 1]
  {
    hide Pow2, LEXT, LBASE;
    SmallPowers();
    LengthExtra(k);
    LengthExtra(28);
    LengthStart(0);
    LengthStart(28);
    LengthStart(k);
    LengthStart(k + 1);
    if 8 <= k < 27 && k % 4 == 3 {
      assert (k + 1) / 4 - 1 == k / 4 && (k + 1) % 4 == 0;
      PowStep(k / 4 - 1);
    }
  }

  /** The first distance of a symbol, in closed form. */
  lemma DistanceBase(k: nat)
    requires k < 30
    ensures DBASE[k] == if k < 4 then k + 1 else (if k % 2 == 0 then 2 else 3) * Pow2(k / 2 - 1) + 1
  {
    hide Pow2;
    SmallPowers();
  }

  /** So do those of the distance symbols, up to 32768. */
  lemma DistancesMeet(k: nat)
    requires k < 30
    ensures DBASE[0] == 1
    ensures (if k == 29 then 32769 else DBASE[k + 1]) == DBASE[k] + Pow2(DEXT[k] % 16)
  {
    hide Pow2, DEXT, DBASE;
    SmallPowers();
    DistExtra(k);
    DistanceBase(0);
    DistanceBase(k);
    if k < 29 {
      DistanceBase(k + 1);
      if k >= 4 && k % 2 == 1 {
        assert (k + 1) / 2 - 1 == k / 2;
        PowStep(k / 2 - 1);
      }
    }
  }

  /** Every length from 3 to 258 has a symbol below `n` whose range it is in, if it is below what `n` begins. */
  lemma {:induction false} FindLength(length: nat, n: nat) returns (ls: nat, le: nat)
    requires 3 <= length && 1 <= n <= 28 && length < LBASE[n]
    ensures 257 <= ls < 257 + n && le < Pow2(LengthBits(ls)) && LengthValue(ls, le) == length
    decreases n
  {
    hide LEXT, Pow2;
    LengthsMeet(n - 1);
    if length >= LBASE[n - 1] {
      ls, le := 257 + n - 1, length - LBASE[n - 1];
    } else {
      ls, le := FindLength(length, n - 1);
    }
  }

  lemma {:induction false} FindDistance(offset: nat, n: nat) returns (ds: nat, de: nat)
    requires 1 <= offset && 1 <= n <= 30 && offset < (if n == 30 then 32769 else DBASE[n])
    ensures ds < n && de < Pow2(DistBits(ds)) && DistValue(ds, de) == offset
    decreases n
  {
    hide DEXT, Pow2;
    DistancesMeet(n - 1);
    if offset >= DBASE[n - 1] {
      ds, de := n - 1, offset - DBASE[n - 1];
    } else {
      ds, de := FindDistance(offset, n - 1);
    }
  }

  /** With codes for all symbols, every literal and every match of the format has a spelling. */
  lemma EveryToken(c: CodePair, x: Token) returns (i: Item)
    requires (forall s :: 0 <= s < 286 ==> HasCode(c.len, s)) && forall s :: 0 <= s < 30 ==> HasCode(c.dist, s)
    requires x.Copy? ==> 3 <= x.length <= 258 && 1 <= x.offset <= 32768
    ensures ItemOk(c, i) && TokenOf(c, i) == x
  {
    hide LengthBits, DistBits, LengthValue, DistValue, Pow2;
    match x
    case Literal(b) => i := Byte(b);
    case Copy(offset, length) =>
      var ls, le := LengthOf(length);
      var ds, de := FindDistance(offset, 30);
      i := Pair(ls, le, ds, de);
  }

  lemma LengthOf(length: nat) returns (ls: nat, le: nat)
    requires 3 <= length <= 258
    ensures 257 <= ls < 286 && le < Pow2(LengthBits(ls)) && LengthValue(ls, le) == length
  {
    hide LEXT;
    LengthsMeet(0);
    if length == 258 {
      ls, le := 285, 0;
    } else {
      ls, le := FindLength(length, 28);
    }
  }
}
