/** inflate_fast: the same reading, two bytes at a time, with unused bytes given back at the end. */
module InflateFast {
  import opened Base
  import opened BitHold
  import opened BitString
  import opened CanonicalCode
  import opened DeflateBits
  import opened InflateBlock
  import opened InflateCodes
  import opened InflateLookup
  import opened InflateTable
  import opened InflateTrees
  import opened LsbCode

  /** Neither a symbol nor an error: a second-level entry is next. */
  predicate IsSecond(op: nat) {
    op != 0 && op / 16 % 2 == 0 && op / 64 % 2 == 0
  }

  /** What the operation of a symbol or an error can be. */
  predicate IsFinal(op: nat) {
    op == 0 || 16 <= op < 32 || op == 64 || op == 68 || op == 78 || op == 96
  }

  lemma AnswerIsFinal(ty: CodeType, lens: seq<byte>, b: Bits, seen: Seen)
    requires ty != Codes && |lens| <= MaxSymbols(ty) && Answer(ty, lens, b) == Some(seen)
    ensures IsFinal(seen.op)
  {
    hide ReadSymbol, LEXT, LBASE, DEXT, DBASE;
    match ReadSymbol(lens, b)
    case Symbol(s) => LeafIsFinal(ty, s);
    case _ =>
  }

  lemma LeafIsFinal(ty: CodeType, s: nat)
    requires ty != Codes && s < MaxSymbols(ty)
    ensures IsFinal(Leaf(ty, s, 0).op)
  {
    hide LEXT, LBASE, DEXT, DBASE;
    if ty == Lens && s > 256 {
      LengthExtra(s - 257);
    } else if ty == Dists {
      DistExtra(s);
    }
  }

  // ---- one symbol, with plenty of bits ----

  /** `if (bits < 15)`, two bytes at once. */
  method Refill(h: Hold, input: seq<byte>, pos: nat) returns (pos': nat)
    requires h.Valid() && pos <= |input| && (h.bits < 15 ==> pos + 2 <= |input|) && h.bits <= 30
    modifies h
    ensures h.Valid() && pos' <= |input| && 15 <= h.bits <= 30
    ensures if old(h.bits) < 15 then pos' == pos + 2 else pos' == pos
    ensures h.bits == old(h.bits) + 8 * (pos' - pos) && h.Unread(input, pos') == old(h.Unread(input, pos))
  {
    hide LsbNat;
    pos' := pos;
    if h.bits < 15 {
      pos' := h.Pull(input, pos');
      pos' := h.Pull(input, pos');
    }
  }

  lemma WholeLook(ty: CodeType, lens: seq<byte>, root: nat, t: seq<Slot>, b: Bits)
    requires Serves(ty, lens, root, t) && |lens| <= MaxSymbols(ty) && |b| >= MAXBITS && ty != Codes
    ensures Answer(ty, lens, b).Some? && SeenOf(Look(root, t, b)) == Answer(ty, lens, b)
    ensures IsFinal(Answer(ty, lens, b).value.op)
  {
    hide AllWritten, Answer, Look, CodeOk, SeenOf;
    SeesAnswer(ty, lens, root, t, b);
    AnswerSoon(ty, lens, b);
    AnswerIsFinal(ty, lens, b, Answer(ty, lens, b).value);
  }

  /** An index into a sub-table, the root's bits already dropped. */
  lemma PeekDropped(b: Bits, i: nat, n: nat)
    requires i <= |b|
    ensures Peek(b[i..], 0, n) == Peek(b, i, n)
  {
    hide LsbNat;
    assert Padded(b[i..], 0 + n)[0..] == Padded(b, i + n)[i..];
  }

  /** The root level of a look that ends at a symbol there. */
  lemma EndsAtRoot(root: nat, t: seq<Slot>, b: Bits, x: nat)
    requires SeenOf(Look(root, t, b)).Some? && x == Peek(b, 0, root)
    ensures x < |t| && t[x].Entry? && t[x].bits <= |b|
    ensures !IsSecond(SeenOf(Look(root, t, b)).value.op) && !IsSecond(t[x].op) ==>
      SeenOf(Look(root, t, b)).value == Seen(t[x].op, t[x].val, t[x].bits)
  {
    hide Peek;
  }

  /** The second level of a look. */
  lemma EndsAtSub(root: nat, t: seq<Slot>, b: Bits, x: nat, y: nat)
    requires SeenOf(Look(root, t, b)).Some? && x == Peek(b, 0, root) && x < |t| && t[x].Entry? && IsSecond(t[x].op)
    requires !IsSecond(SeenOf(Look(root, t, b)).value.op)
    requires y == t[x].val + Peek(b, t[x].bits, t[x].op)
    ensures y < |t| && t[y].Entry? && t[x].bits + t[y].bits <= |b|
    ensures SeenOf(Look(root, t, b)).value == Seen(t[y].op, t[y].val, t[x].bits + t[y].bits)
  {
    hide Peek;
  }

  /** dolen and dodist: the entry for the bits held, at one level or two; the second is never a link again. */
  method FastCode(h: Hold, root: nat, t: seq<Slot>, ghost ty: CodeType, ghost lens: seq<byte>, ghost input: seq<byte>,
                  ghost pos: nat)
    returns (here: Slot, ghost used: nat)
    requires h.Valid() && 15 <= h.bits && Serves(ty, lens, root, t) && |lens| <= MaxSymbols(ty) && ty != Codes
    requires pos <= |input|
    modifies h
    ensures h.Valid() && here.Entry? && 1 <= used <= MAXBITS && h.bits == old(h.bits) - used
    ensures Answer(ty, lens, old(h.live)) == Some(Seen(here.op, here.val, used)) && IsFinal(here.op)
    ensures used <= |old(h.Unread(input, pos))| && h.Unread(input, pos) == old(h.Unread(input, pos))[used..]
  {
    hide LsbNat, Peek, Answer, AllWritten, Look, CodeOk, SeenOf;
    OkOfServes(ty, lens, root, t);
    WholeLook(ty, lens, root, t, h.live);
    AnswerWithin(ty, lens, h.live);
    ghost var b, all := h.live, h.Unread(input, pos);
    var x := h.Bits(0, root);
    EndsAtRoot(root, t, b, x);
    here := t[x];
    used := here.bits;
    h.Drop(here.bits, input, pos);
    if IsSecond(here.op) {
      var first := here;
      PeekDropped(b, first.bits, first.op);
      var y := h.Bits(0, first.op);
      EndsAtSub(root, t, b, x, first.val + y);
      here := t[first.val + y];
      h.Drop(here.bits, input, pos);
      used := first.bits + here.bits;
      assert all[first.bits..][here.bits..] == all[used..];
    }
  }

  /** The tests of inflate_fast behind a literal/length code, in their order. */
  function FastLenMode(op: nat, val: nat): Mode {
    if op == 0 then Lit(val % 256)
    else if op / 16 % 2 == 1 then LenExt(val, op % 16)
    else if op / 32 % 2 == 1 then Type
    else Bad
  }

  /** Those behind a distance code. */
  function FastDistMode(length: nat, op: nat, val: nat): Mode {
    if op / 16 % 2 == 1 then DistExt(length, val, op % 16) else Bad
  }

  /** Either order of the tests tells the same. */
  lemma SameTests(length: nat, op: nat, val: nat)
    requires IsFinal(op)
    ensures FastLenMode(op, val) == LenMode(op, val)
    ensures op != 0 && op != 96 ==> FastDistMode(length, op, val) == DistMode(length, op, val)
  {
  }

  lemma DistOps(lens: seq<byte>, b: Bits, seen: Seen)
    requires |lens| <= 32 && Answer(Dists, lens, b) == Some(seen)
    ensures seen.op != 0 && seen.op != 96
  {
    hide ReadSymbol, DEXT, DBASE;
    match ReadSymbol(lens, b)
    case Symbol(s) => DistExtra(s);
    case _ =>
  }

  // ---- a length or literal, then a distance ----

  /** One step along the bits, whatever follows them. */
  lemma SameNext(c: CodePair, text: seq<byte>, m0: Mode, a: Bits, m: Mode, n: nat, later: Bits)
    requires CodesOk(c) && AtBits(m0) && Next(c, m0, a) == Some((m, n))
    ensures n <= |a| && Same(c, text, m0, a + later, m, a[n..] + later)
  {
    hide Next, CodesOk, Ahead, Farthest;
    NextMore(c, m0, a, later);
    AheadNext(c, text, m0, a + later);
    assert (a + later)[n..] == a[n..] + later;
  }

  lemma UseMore(b: Bits, m: nat, n: nat)
    requires m + n <= |b|
    ensures b[m..][n..] == b[m + n..]
  {
  }

  /** dolen: the literal/length code, refilled for. */
  method FastLenCode(h: Hold, ghost c: CodePair, t: Tables, input: seq<byte>, pos: nat)
    returns (pos': nat, m: Mode, ghost used: nat)
    requires h.Valid() && TablesOk(c, t) && CodesOk(c) && h.bits <= 30 && pos + 2 <= |input|
    modifies h
    ensures h.Valid() && h.bits <= 30 && pos <= pos' <= pos + 2 && (pos' > pos ==> pos' == pos + 2 && old(h.bits) < 15)
    ensures 1 <= used <= 15 && h.bits + used == old(h.bits) + 8 * (pos' - pos)
    ensures used <= |old(h.Unread(input, pos))| && h.Unread(input, pos') == old(h.Unread(input, pos))[used..]
    ensures Next(c, Len, old(h.Unread(input, pos))) == Some((m, used))
    ensures Next(c, Len, old(h.live)) == None ==> used > |old(h.live)|
  {
    hide Serves, LsbNat, Answer, CodeOk, Next, CodesOk, LenMode, FastLenMode, Leaf, Peek, IsFinal, FastDistMode;
    hide DistMode;
    CodesOfTables(c, t);
    OkOfServes(Lens, c.len, t.lenbits, t.lencode);
    ghost var all, live0 := h.Unread(input, pos), h.live;
    pos' := Refill(h, input, pos);
    ghost var held := h.live;
    var here;
    here, used := FastCode(h, t.lenbits, t.lencode, Lens, c.len, input, pos');
    ghost var seen := Seen(here.op, here.val, used);
    AnswerMore(Lens, c.len, held, InputBits(input[pos'..]));
    LenAnswer(c, all, seen);
    SameTests(0, here.op, here.val);
    m := FastLenMode(here.op, here.val);
    EnoughHeld(Lens, c.len, live0, InputBits(input[pos..]), seen);
    StarvedNext(c, 3, live0);
  }

  /** Extra bits, one byte pulled for them at most. */
  method FastExtra(h: Hold, extra: nat, input: seq<byte>, pos: nat) returns (pos': nat, v: nat)
    requires h.Valid() && h.bits <= 30 && extra <= h.bits + 8 && pos <= |input| && (h.bits < extra ==> pos < |input|)
    requires extra <= 13
    modifies h
    ensures h.Valid() && h.bits <= 30 && pos <= pos' <= pos + 1 && pos' <= |input|
    ensures pos' > pos ==> old(h.bits) < extra
    ensures h.bits + extra == old(h.bits) + 8 * (pos' - pos)
    ensures extra <= |old(h.Unread(input, pos))| && h.Unread(input, pos') == old(h.Unread(input, pos))[extra..]
    ensures v == LsbNat(old(h.Unread(input, pos))[..extra])
  {
    hide LsbNat, Peek;
    pos' := pos;
    if h.bits < extra {
      pos' := h.Pull(input, pos');
    }
    v := h.Bits(0, extra);
    PeekFront(h.live, InputBits(input[pos'..]), extra);
    h.Drop(extra, input, pos');
  }

  lemma LenIsOk()
    ensures ModeOk(Len)
  {
  }

  lemma LenLeads(c: CodePair, b: Bits)
    requires CodesOk(c) && Next(c, Len, b).Some?
    ensures var m := Next(c, Len, b).value.0; m.Lit? || m.Type? || m.Bad? || m.LenExt?
  {
    hide ReadSymbol, CodesOk;
  }

  lemma ExtraNext(c: CodePair, m: Mode, b: Bits, v: nat)
    requires CodesOk(c) && ModeOk(m) && (m.LenExt? || m.DistExt?) && m.extra <= |b| && v == LsbNat(b[..m.extra])
    ensures m.LenExt? ==> m.extra <= 5 && Next(c, m, b) == Some((Dist(m.length + v), m.extra))
    ensures m.DistExt? ==> m.extra <= 13 && Next(c, m, b) == Some((InMatch(m.offset + v, m.length), m.extra))
  {
    hide LsbNat, CodesOk, Pow2;
  }

  lemma ExtraSmall(m: Mode)
    requires ModeOk(m)
    ensures (m.LenExt? ==> m.extra <= 5) && (m.DistExt? ==> m.extra <= 13)
  {
    hide Pow2;
  }

  /** lcode: a literal, an error, the end of the block, or a length with its extra bits. */
  method FastLength(h: Hold, ghost c: CodePair, t: Tables, input: seq<byte>, pos: nat, ghost text: seq<byte>,
                    ghost later: Bits)
    returns (pos': nat, m: Mode, ghost used: nat)
    requires h.Valid() && TablesOk(c, t) && CodesOk(c) && h.bits <= 30 && pos + 3 <= |input|
    modifies h
    ensures h.Valid() && h.bits <= 30 && pos <= pos' <= pos + 3
    ensures 1 <= used <= 20 && h.bits + used == old(h.bits) + 8 * (pos' - pos)
    ensures used <= |old(h.Unread(input, pos))| && h.Unread(input, pos') == old(h.Unread(input, pos))[used..]
    ensures Next(c, Len, old(h.live)) == None ==> used > |old(h.live)|
    ensures ModeOk(m) && (m.Lit? || m.Type? || m.Bad? || m.Dist?)
    ensures Same(c, text, Len, old(h.Unread(input, pos)) + later, m, h.Unread(input, pos') + later)
  {
    hide TablesOk, LsbNat, CodesOk, Ahead, Farthest, Same, Next, ModeOk, Hold.Valid, Hold.Unread;
    ghost var all := h.Unread(input, pos);
    pos', m, used := FastLenCode(h, c, t, input, pos);
    LenIsOk();
    NextOk(c, Len, all);
    SameNext(c, text, Len, all, m, used, later);
    LenLeads(c, all);
    if m.LenExt? {
      ghost var mid, len := h.Unread(input, pos'), m;
      ExtraSmall(m);
      var v, extra := 0, m.extra;
      if extra != 0 {
        pos', v := FastExtra(h, extra, input, pos');
      } else {
        NoExtra(mid);
      }
      ExtraNext(c, len, mid, v);
      m := Dist(m.length + v);
      NextOk(c, len, mid);
      SameNext(c, text, len, mid, m, extra, later);
      PartsMeet(c, text, Len, all + later, len, mid + later, m, h.Unread(input, pos') + later);
      UseMore(all, used, extra);
      used := used + extra;
    }
  }

  /** dodist: the distance code, refilled for. */
  method FastDistCode(h: Hold, ghost c: CodePair, t: Tables, length: nat, input: seq<byte>, pos: nat)
    returns (pos': nat, m: Mode, ghost used: nat)
    requires h.Valid() && TablesOk(c, t) && CodesOk(c) && h.bits <= 30 && pos <= |input|
    requires h.bits < 15 ==> pos + 2 <= |input|
    modifies h
    ensures h.Valid() && h.bits <= 30 && pos <= pos' <= |input|
    ensures if old(h.bits) < 15 then pos' == pos + 2 else pos' == pos
    ensures 1 <= used <= 15 && h.bits + used == old(h.bits) + 8 * (pos' - pos)
    ensures used <= |old(h.Unread(input, pos))| && h.Unread(input, pos') == old(h.Unread(input, pos))[used..]
    ensures Next(c, Dist(length), old(h.Unread(input, pos))) == Some((m, used))
  {
    hide Serves, LsbNat, Answer, CodeOk, Next, CodesOk, DistMode, FastDistMode, Leaf, Peek, IsFinal, FastLenMode;
    hide LenMode;
    CodesOfTables(c, t);
    OkOfServes(Dists, c.dist, t.distbits, t.distcode);
    ghost var all := h.Unread(input, pos);
    pos' := Refill(h, input, pos);
    ghost var held := h.live;
    var here;
    here, used := FastCode(h, t.distbits, t.distcode, Dists, c.dist, input, pos');
    ghost var seen := Seen(here.op, here.val, used);
    AnswerMore(Dists, c.dist, held, InputBits(input[pos'..]));
    DistAnswer(c, length, all, seen);
    DistOps(c.dist, all, seen);
    SameTests(length, here.op, here.val);
    m := FastDistMode(length, here.op, here.val);
  }

  /** The extra bits of a distance, two bytes pulled for them at most. */
  method FastDistExtra(h: Hold, extra: nat, input: seq<byte>, pos: nat) returns (pos': nat, v: nat)
    requires h.Valid() && h.bits <= 30 && extra <= 13 && pos <= |input|
    requires h.bits < extra ==> pos < |input| && (h.bits + 8 < extra ==> pos + 2 <= |input|)
    modifies h
    ensures h.Valid() && h.bits <= 30 && pos <= pos' <= pos + 2 && pos' <= |input|
    ensures (pos' > pos ==> old(h.bits) < extra) && (pos' > pos + 1 ==> old(h.bits) + 8 < extra)
    ensures h.bits + extra == old(h.bits) + 8 * (pos' - pos)
    ensures extra <= |old(h.Unread(input, pos))| && h.Unread(input, pos') == old(h.Unread(input, pos))[extra..]
    ensures v == LsbNat(old(h.Unread(input, pos))[..extra])
  {
    hide LsbNat, Peek;
    pos' := pos;
    if h.bits < extra {
      pos' := h.Pull(input, pos');
    }
    pos', v := FastExtra(h, extra, input, pos');
  }

  lemma DistLeads(c: CodePair, length: nat, b: Bits)
    requires CodesOk(c) && Next(c, Dist(length), b).Some?
    ensures var m := Next(c, Dist(length), b).value.0; m.Bad? || (m.DistExt? && m.length == length)
  {
    hide ReadSymbol, CodesOk;
  }

  /**
   * dcode: a match, or an error. Of the six bytes that inflate_fast asks for, the length and the distance can
   * together pull no more: four only if few bits were left.
   */
  method FastDistance(h: Hold, ghost c: CodePair, t: Tables, length: nat, input: seq<byte>, pos: nat,
                      ghost text: seq<byte>, ghost later: Bits)
    returns (pos': nat, m: Mode, ghost used: nat)
    requires h.Valid() && TablesOk(c, t) && CodesOk(c) && h.bits <= 30 && ModeOk(Dist(length))
    requires pos + (if h.bits < 4 then 4 else 3) <= |input|
    modifies h
    ensures h.Valid() && h.bits <= 30 && pos <= pos' <= pos + (if old(h.bits) < 4 then 4 else 3)
    ensures h.bits + used == old(h.bits) + 8 * (pos' - pos)
    ensures used <= |old(h.Unread(input, pos))| && h.Unread(input, pos') == old(h.Unread(input, pos))[used..]
    ensures ModeOk(m) && (m.InMatch? || m.Bad?)
    ensures Same(c, text, Dist(length), old(h.Unread(input, pos)) + later, m, h.Unread(input, pos') + later)
  {
    hide TablesOk, LsbNat, CodesOk, Ahead, Farthest, Same, Next, ModeOk, Hold.Valid, Hold.Unread;
    ghost var all, m0 := h.Unread(input, pos), Dist(length);
    pos', m, used := FastDistCode(h, c, t, length, input, pos);
    NextOk(c, m0, all);
    SameNext(c, text, m0, all, m, used, later);
    DistLeads(c, length, all);
    if m.DistExt? {
      ghost var mid, code := h.Unread(input, pos'), m;
      ExtraSmall(m);
      var v, extra := 0, m.extra;
      pos', v := FastDistExtra(h, extra, input, pos');
      ExtraNext(c, code, mid, v);
      m := InMatch(m.offset + v, length);
      NextOk(c, code, mid);
      SameNext(c, text, code, mid, m, extra, later);
      PartsMeet(c, text, m0, all + later, code, mid + later, m, h.Unread(input, pos') + later);
      UseMore(all, used, extra);
      used := used + extra;
    }
  }

  // ---- giving bytes back ----

  /** The last bytes pulled lie on top of the bits held. */
  lemma TopBytes(live0: Bits, input: seq<byte>, pos0: nat, pos: nat, used: nat, live: Bits, n: nat)
    requires pos0 + n <= pos <= |input| && 8 * n <= |live| && used <= |live0| + 8 * (|input| - pos0)
    requires live + InputBits(input[pos..]) == (live0 + InputBits(input[pos0..]))[used..]
    ensures live == live[..|live| - 8 * n] + InputBits(input[pos - n..pos])
    ensures live[..|live| - 8 * n] + InputBits(input[pos - n..]) == (live0 + InputBits(input[pos0..]))[used..]
  {
    hide InputBits;
    var front, back, rest := input[pos0..pos - n], input[pos - n..pos], input[pos..];
    assert input[pos0..] == front + (back + rest) && input[pos - n..] == back + rest;
    InputConcat(front, back + rest);
    InputConcat(back, rest);
    var all := live0 + InputBits(input[pos0..]);
    var x, y := live0 + InputBits(front), InputBits(back) + InputBits(rest);
    assert all == x + y;
    SameTail(live, InputBits(back), InputBits(rest), x, used);
  }

  /** Bits that end alike: what is before the last `|r|` of them ends with `y`. */
  lemma SameTail(live: Bits, y: Bits, r: Bits, x: Bits, used: nat)
    requires used <= |x| && |y| <= |live| && live + r == (x + (y + r))[used..]
    ensures live == live[..|live| - |y|] + y
    ensures live[..|live| - |y|] + (y + r) == live + r
  {
    var z := x[used..];
    assert (x + (y + r))[used..] == z + y + r;
    assert live == (live + r)[..|live|];
    assert |live| == |z| + |y|;
    assert live == z + y;
  }

  /** The end of inflate_fast: whole bytes held go back to the input. */
  method GiveBack(h: Hold, input: seq<byte>, pos0: nat, pos: nat, ghost live0: Bits, ghost used: nat)
    returns (pos': nat)
    requires h.Valid() && pos0 <= pos <= |input| && h.bits <= 8 * (pos - pos0) + 7
    requires used <= |live0| + 8 * (|input| - pos0)
    requires h.Unread(input, pos) == (live0 + InputBits(input[pos0..]))[used..]
    modifies h
    ensures h.Valid() && h.bits < 8 && pos0 <= pos' <= pos && h.Unread(input, pos') == old(h.Unread(input, pos))
  {
    hide LsbNat, InputBits, Pow2;
    var len := h.bits / 8;
    pos' := pos - len;
    TopBytes(live0, input, pos0, pos, used, h.live, len);
    LsbMod(h.live, h.bits - 8 * len);
    PowPositive(h.bits - 8 * len);
    h.bits := h.bits - 8 * len;
    h.hold := h.hold % Pow2(h.bits);
    h.live := h.live[..h.bits];
  }

  // ---- how many bits are held on entry ----

  /** The beginning of a code is no code yet. */
  lemma BeginningStarves(lens: seq<byte>, s: nat, n: nat)
    requires CodeOk(Lens, lens) && s < |lens| && n < lens[s] && lens[s] > 1
    ensures ReadSymbol(lens, CodeBits(lens, s)[..n]) == Starved
  {
    hide Kraft, Pow2, CodeBits;
    var b := CodeBits(lens, s)[..n];
    var f := FindCode(lens, b, |lens|);
    if f.Some? {
      var code := CodeBits(lens, f.value);
      assert code <= b <= CodeBits(lens, s) && |code| <= n;
      PrefixFree(lens, MAXBITS, f.value, s);
    }
  }

  /** If no code is longer than `n` bits, that many always decide. */
  lemma ShortCodesDecide(lens: seq<byte>, n: nat, b: Bits)
    requires CodeOk(Lens, lens) && 1 <= n <= MAXBITS && |b| >= n && forall s :: 0 <= s < |lens| ==> lens[s] <= n
    ensures ReadSymbol(lens, b) != Starved
  {
    hide Kraft, Pow2, CodeBits;
    if Kraft(lens, MAXBITS) == Pow2(MAXBITS) {
      AtTop(lens, n);
      var s := CompleteCovers(Job(lens, Lens, 1, n), b[..n]);
      var code := CodeBits(lens, s);
      assert code == b[..|code|];
      ReadsCode(Lens, lens, b, s);
    }
  }

  /**
   * The entry assumption of inflate_fast, fewer than eight bits held: it is met on all inputs if and only if no
   * literal/length code is longer than eight bits.
   */
  lemma EntryAssumption(c: CodePair)
    requires CodesOk(c)
    ensures (forall live: Bits :: Sparing(c, Len, live) ==> |live| < 8)
            <==> forall s :: 0 <= s < |c.len| ==> c.len[s] <= 8
  {
    hide Kraft, Pow2, CodeBits, ReadSymbol, AfterLen;
    if forall s :: 0 <= s < |c.len| ==> c.len[s] <= 8 {
      forall live: Bits | Sparing(c, Len, live)
        ensures |live| < 8
      {
        if |live| >= 8 {
          ShortCodesDecide(c.len, 8, live);
        }
      }
    } else {
      var s :| 0 <= s < |c.len| && c.len[s] > 8;
      BeginningStarves(c.len, s, 8);
      var live := CodeBits(c.len, s)[..8];
      assert Sparing(c, Len, live);
    }
  }
}
