/** The LEN, LENEXT, DIST and DISTEXT states of inflate: lookups and extra bits over any pieces of input. */
module InflateBlock {
  import opened Base
  import opened BitHold
  import opened BitString
  import opened CanonicalCode
  import opened DeflateBits
  import opened InflateCodes
  import opened InflateLookup
  import opened InflateTable
  import opened LsbCode

  // ---- looking a symbol up ----

  lemma PeekBelow(b: Bits, i: nat, n: nat)
    ensures Peek(b, i, n) < Pow2(n)
  {
    hide LsbNat, Pow2;
    LsbLess(Padded(b, i + n)[i..]);
  }

  /** What the table says about the bits held is what the code says. */
  lemma SeesAnswer(ty: CodeType, lens: seq<byte>, root: nat, t: seq<Slot>, b: Bits)
    requires Serves(ty, lens, root, t)
    ensures |lens| <= MaxSymbols(ty) && SeenOf(Look(root, t, b)) == Answer(ty, lens, b)
  {
    hide Look, AllWritten, Answer, SeenOf;
  }

  lemma RootSlotOk(ty: CodeType, lens: seq<byte>, root: nat, t: seq<Slot>, b: Bits)
    requires Serves(ty, lens, root, t)
    ensures Peek(b, 0, root) < |t| && SlotOk(root, t, Peek(b, 0, root))
  {
    hide Look, Answer, SeenOf, Peek, SlotOk, Pow2;
    PeekBelow(b, 0, root);
  }

  /** A root entry of more bits than are held: the code wants more. */
  lemma RootStarves(ty: CodeType, lens: seq<byte>, root: nat, t: seq<Slot>, b: Bits)
    requires Serves(ty, lens, root, t) && Peek(b, 0, root) < |t|
    requires t[Peek(b, 0, root)].Entry? && t[Peek(b, 0, root)].bits > |b|
    ensures |lens| <= MaxSymbols(ty) && CodeOk(ty, lens) && Answer(ty, lens, b) == None && |b| < MAXBITS
  {
    hide AllWritten, Answer, Peek, CodeOk;
    SeesAnswer(ty, lens, root, t, b);
    if |b| >= MAXBITS {
      AnswerSoon(ty, lens, b);
    }
  }

  /** Only the first `n` bits decide about an index of `n` bits, once they are there. */
  lemma PeekKeeps(b: Bits, more: Bits, n: nat)
    requires n <= |b|
    ensures Peek(b + more, 0, n) == Peek(b, 0, n)
  {
    hide LsbNat;
    assert (b + more)[..n] == b[..n];
  }

  /** Nothing is pulled that was not needed: what was held before the last pull was too little. */
  ghost predicate Needed(ty: CodeType, lens: seq<byte>, live: Bits, before: Bits, pulled: bool)
    requires |lens| <= MaxSymbols(ty)
  {
    pulled ==> before <= live && |live| == |before| + 8 && Answer(ty, lens, before) == None
  }

  lemma PulledFor(ty: CodeType, lens: seq<byte>, live: Bits, before: Bits)
    requires |lens| <= MaxSymbols(ty) && before <= live && |live| == |before| + 8 && Answer(ty, lens, before) == None
    ensures Needed(ty, lens, live, before, true)
  {
    hide Answer;
  }

  /** The loop at the root table. */
  method RootEntry(h: Hold, root: nat, t: seq<Slot>, ghost ty: CodeType, ghost lens: seq<byte>, input: seq<byte>,
                   pos: nat)
    returns (ok: bool, pos': nat, here: Slot, ghost before: Bits)
    requires h.Valid() && Serves(ty, lens, root, t) && pos <= |input| && |lens| <= MaxSymbols(ty)
    modifies h
    ensures h.Valid() && pos <= pos' <= |input| && h.Unread(input, pos') == old(h.Unread(input, pos))
    ensures pos' == pos ==> h.live == old(h.live)
    ensures Needed(ty, lens, h.live, before, pos' > pos)
    ensures ok ==> Peek(h.live, 0, root) < |t| && here == t[Peek(h.live, 0, root)] && here.Entry? && here.bits <= h.bits
    ensures ok ==> SlotOk(root, t, Peek(h.live, 0, root))
    ensures !ok ==> pos' == |input| && Answer(ty, lens, h.live) == None
  {
    hide Serves, LsbNat, Peek, Answer, SlotOk;
    ok, pos', before := true, pos, [];
    var x := h.Bits(0, root);
    RootSlotOk(ty, lens, root, t, h.live);
    SlotIsEntry(root, t, x);
    here := t[x];
    while here.bits > h.bits
      invariant h.Valid() && pos <= pos' <= |input| && h.Unread(input, pos') == old(h.Unread(input, pos))
      invariant pos' == pos ==> h.live == old(h.live)
      invariant Needed(ty, lens, h.live, before, pos' > pos)
      invariant Peek(h.live, 0, root) < |t| && here == t[Peek(h.live, 0, root)] && here.Entry?
      invariant SlotOk(root, t, Peek(h.live, 0, root))
      decreases |input| - pos'
    {
      RootStarves(ty, lens, root, t, h.live);
      if pos' == |input| {
        ok := false;
        return;
      }
      before := h.live;
      pos' := h.Pull(input, pos');
      x := h.Bits(0, root);
      RootSlotOk(ty, lens, root, t, h.live);
      SlotIsEntry(root, t, x);
      here := t[x];
    }
  }

  lemma SlotIsEntry(root: nat, t: seq<Slot>, x: nat)
    requires x < |t| && SlotOk(root, t, x)
    ensures t[x].Entry? && 1 <= t[x].bits
  {
  }

  /** A link: its sub-table is inside the table. */
  lemma LinkOk(root: nat, t: seq<Slot>, x: nat, b: Bits)
    requires x < |t| && SlotOk(root, t, x) && 1 <= t[x].op <= 15
    ensures t[x].bits == root
    ensures var y := t[x].val + Peek(b, root, t[x].op); y < |t| && t[y].Entry?
  {
    hide Peek, Pow2;
    PeekBelow(b, root, t[x].op);
  }

  /** The root entry of the bits held leads to a sub-table. */
  ghost predicate AtLink(root: nat, t: seq<Slot>, b: Bits, last: Slot) {
    var x := Peek(b, 0, root);
    && x < |t| && last == t[x] && SlotOk(root, t, x) && 1 <= last.op <= 15 && last.bits <= |b|
  }

  /** The sub-table entry of the bits held. */
  ghost predicate AtSub(root: nat, t: seq<Slot>, b: Bits, last: Slot, here: Slot)
    requires AtLink(root, t, b, last)
  {
    var y := last.val + Peek(b, last.bits, last.op);
    y < |t| && here == t[y] && here.Entry?
  }

  lemma LinkStays(root: nat, t: seq<Slot>, b: Bits, more: Bits, last: Slot)
    requires AtLink(root, t, b, last)
    ensures AtLink(root, t, b + more, last)
  {
    hide Peek;
    PeekKeeps(b, more, root);
  }

  method SubSlot(h: Hold, root: nat, t: seq<Slot>, last: Slot) returns (here: Slot)
    requires h.Valid() && AtLink(root, t, h.live, last)
    ensures AtSub(root, t, h.live, last, here) && here.Entry?
  {
    hide LsbNat, Peek;
    LinkOk(root, t, Peek(h.live, 0, root), h.live);
    var y := h.Bits(last.bits, last.op);
    here := t[last.val + y];
  }

  /** So does a sub-table entry of more bits than are held. */
  lemma SubStarves(ty: CodeType, lens: seq<byte>, root: nat, t: seq<Slot>, b: Bits, last: Slot, here: Slot)
    requires Serves(ty, lens, root, t) && AtLink(root, t, b, last) && AtSub(root, t, b, last, here)
    requires last.bits + here.bits > |b|
    ensures |lens| <= MaxSymbols(ty) && CodeOk(ty, lens) && Answer(ty, lens, b) == None && |b| < MAXBITS
  {
    hide AllWritten, Answer, Peek, CodeOk;
    SeesAnswer(ty, lens, root, t, b);
    if |b| >= MAXBITS {
      AnswerSoon(ty, lens, b);
    }
  }

  /** The loop at a sub-table. */
  method SubEntry(h: Hold, root: nat, t: seq<Slot>, ghost ty: CodeType, ghost lens: seq<byte>, input: seq<byte>,
                  pos: nat, last: Slot, ghost before0: Bits, ghost pulled: bool)
    returns (ok: bool, pos': nat, here: Slot, ghost before: Bits)
    requires h.Valid() && Serves(ty, lens, root, t) && pos <= |input| && |lens| <= MaxSymbols(ty)
    requires last.Entry? && AtLink(root, t, h.live, last) && Needed(ty, lens, h.live, before0, pulled)
    modifies h
    ensures h.Valid() && pos <= pos' <= |input| && h.Unread(input, pos') == old(h.Unread(input, pos))
    ensures pos' == pos ==> h.live == old(h.live)
    ensures Needed(ty, lens, h.live, before, pulled || pos' > pos)
    ensures ok ==> AtLink(root, t, h.live, last) && AtSub(root, t, h.live, last, here)
    ensures ok ==> here.Entry? && last.bits + here.bits <= h.bits
    ensures !ok ==> pos' == |input| && Answer(ty, lens, h.live) == None
  {
    hide Serves, LsbNat, Answer, AtLink, AtSub, Peek, SlotOk, Needed;
    ok, pos', before := true, pos, before0;
    here := SubSlot(h, root, t, last);
    while last.bits + here.bits > h.bits
      invariant h.Valid() && pos <= pos' <= |input| && h.Unread(input, pos') == old(h.Unread(input, pos))
      invariant pos' == pos ==> h.live == old(h.live)
      invariant Needed(ty, lens, h.live, before, pulled || pos' > pos)
      invariant AtLink(root, t, h.live, last) && AtSub(root, t, h.live, last, here) && here.Entry?
      decreases |input| - pos'
    {
      SubStarves(ty, lens, root, t, h.live, last, here);
      if pos' == |input| {
        ok := false;
        return;
      }
      before := h.live;
      pos' := h.Pull(input, pos');
      LinkStays(root, t, before, LsbBits(input[pos' - 1], 8), last);
      PulledFor(ty, lens, h.live, before);
      here := SubSlot(h, root, t, last);
    }
  }

  /** The entry a look ended at gives the answer of the code. */
  lemma LookEnds(ty: CodeType, lens: seq<byte>, root: nat, t: seq<Slot>, b: Bits, rest: Bits, seen: Seen)
    requires Serves(ty, lens, root, t) && SeenOf(Look(root, t, b)) == Some(seen) && |lens| <= MaxSymbols(ty)
    ensures Answer(ty, lens, b) == Some(seen) == Answer(ty, lens, b + rest) && 1 <= seen.used <= |b|
  {
    hide Look, AllWritten, Answer, SeenOf, CodeOk;
    SeesAnswer(ty, lens, root, t, b);
    AnswerMore(ty, lens, b, rest);
    AnswerWithin(ty, lens, b);
  }

  lemma RootSees(root: nat, t: seq<Slot>, b: Bits, here: Slot)
    requires Peek(b, 0, root) < |t| && here == t[Peek(b, 0, root)] && here.Entry? && here.bits <= |b|
    requires here.op == 0 || here.op >= 16
    ensures SeenOf(Look(root, t, b)) == Some(Seen(here.op, here.val, here.bits))
  {
    hide Peek;
  }

  lemma SubSees(root: nat, t: seq<Slot>, b: Bits, last: Slot, here: Slot)
    requires AtLink(root, t, b, last) && AtSub(root, t, b, last, here) && last.bits + here.bits <= |b|
    ensures SeenOf(Look(root, t, b)) == Some(Seen(here.op, here.val, last.bits + here.bits))
  {
    hide Peek;
  }

  /** If a byte was pulled for it, less than a byte is left behind the answer. */
  lemma LittleLeft(ty: CodeType, lens: seq<byte>, live: Bits, before: Bits, seen: Seen)
    requires CodeOk(ty, lens) && Needed(ty, lens, live, before, true) && Answer(ty, lens, live) == Some(seen)
    ensures |live| - seen.used < 8
  {
    hide CodeOk, Answer;
    assert live == before + live[|before|..];
    AnswerBeyond(ty, lens, before, live[|before|..]);
  }

  lemma OkOfServes(ty: CodeType, lens: seq<byte>, root: nat, t: seq<Slot>)
    requires Serves(ty, lens, root, t)
    ensures CodeOk(ty, lens) && |lens| <= MaxSymbols(ty) && 1 <= root <= MAXBITS
  {
  }

  /** Both levels: `first` is what DROPBITS takes before the entry's own bits. */
  method FindEntry(h: Hold, root: nat, t: seq<Slot>, ghost ty: CodeType, ghost lens: seq<byte>, input: seq<byte>,
                   pos: nat)
    returns (ok: bool, pos': nat, here: Slot, first: nat, ghost before: Bits)
    requires h.Valid() && Serves(ty, lens, root, t) && pos <= |input| && |lens| <= MaxSymbols(ty)
    modifies h
    ensures h.Valid() && pos <= pos' <= |input| && h.Unread(input, pos') == old(h.Unread(input, pos))
    ensures (pos' == pos ==> h.live == old(h.live)) && Needed(ty, lens, h.live, before, pos' > pos)
    ensures ok ==> here.Entry? && SeenOf(Look(root, t, h.live)) == Some(Seen(here.op, here.val, first + here.bits))
    ensures !ok ==> pos' == |input| && Answer(ty, lens, h.live) == None
  {
    hide Serves, LsbNat, Peek, Answer, SlotOk, Look, SeenOf, Needed;
    first := 0;
    ok, pos', here, before := RootEntry(h, root, t, ty, lens, input, pos);
    if !ok {
      return;
    }
    if here.op != 0 && here.op < 16 {
      var last, mid := here, pos';
      ok, pos', here, before := SubEntry(h, root, t, ty, lens, input, mid, last, before, mid > pos);
      first := last.bits;
      if ok {
        SubSees(root, t, h.live, last, here);
      }
    } else {
      RootSees(root, t, h.live, here);
    }
  }

  /**
   * The lookup of the LEN and DIST states: it waits until the bits held contain a whole code, at the root table and
   * then at a sub-table, and uses up exactly that code.
   */
  method LookUp(h: Hold, root: nat, t: seq<Slot>, ghost ty: CodeType, ghost lens: seq<byte>, input: seq<byte>, pos: nat)
    returns (ok: bool, pos': nat, here: Slot, ghost used: nat)
    requires h.Valid() && Serves(ty, lens, root, t) && pos <= |input| && |lens| <= MaxSymbols(ty)
    modifies h
    ensures h.Valid() && pos <= pos' <= |input|
    ensures ok ==>
      && here.Entry? && Answer(ty, lens, old(h.Unread(input, pos))) == Some(Seen(here.op, here.val, used))
      && used <= |old(h.Unread(input, pos))| && h.Unread(input, pos') == old(h.Unread(input, pos))[used..]
      && (if pos' > pos then h.bits < 8 else h.bits + used == old(h.bits))
    ensures !ok ==>
      pos' == |input| && Answer(ty, lens, h.live) == None && h.Unread(input, pos') == old(h.Unread(input, pos))
  {
    hide Serves, LsbNat, Answer, CodeOk, Look, SeenOf, Needed;
    OkOfServes(ty, lens, root, t);
    used := 0;
    var first;
    ghost var before;
    ok, pos', here, first, before := FindEntry(h, root, t, ty, lens, input, pos);
    if !ok {
      return;
    }
    used := first + here.bits;
    ghost var seen, all := Seen(here.op, here.val, used), h.Unread(input, pos');
    LookEnds(ty, lens, root, t, h.live, InputBits(input[pos'..]), seen);
    if pos' > pos {
      LittleLeft(ty, lens, h.live, before, seen);
    }
    h.Drop(first, input, pos');
    h.Drop(here.bits, input, pos');
    assert all[first..][here.bits..] == all[used..];
  }

  // ---- what the operation of an entry means ----

  /** The tests behind a literal/length lookup. */
  function LenMode(op: nat, val: nat): Mode {
    if op == 0 then Lit(val % 256)
    else if op / 32 % 2 == 1 then Type
    else if op / 64 % 2 == 1 then Bad
    else LenExt(val, op % 16)
  }

  /** The tests behind a distance lookup. */
  function DistMode(length: nat, op: nat, val: nat): Mode {
    if op / 64 % 2 == 1 then Bad else DistExt(length, val, op % 16)
  }

  lemma LengthInvalid(k: nat)
    requires k < 31
    ensures LEXT[k] / 32 % 2 == 0 && (LEXT[k] / 64 % 2 == 1 <==> LEXT[k] >= 64) && LEXT[k] > 0
  {
    LengthExtra(k);
  }

  lemma LensOp(s: nat)
    requires s < 288
    ensures LenMode(Leaf(Lens, s, 0).op, Leaf(Lens, s, 0).val) == AfterLen(s)
  {
    hide LEXT, LBASE;
    if s > 256 {
      LengthInvalid(s - 257);
    }
  }

  lemma DistsOp(length: nat, s: nat)
    requires s < 32
    ensures DistMode(length, Leaf(Dists, s, 0).op, Leaf(Dists, s, 0).val) == AfterDist(length, s)
  {
    hide DEXT, DBASE;
    DistExtra(s);
  }

  lemma LenAnswer(c: CodePair, b: Bits, seen: Seen)
    requires CodesOk(c) && |c.len| <= 288 && Answer(Lens, c.len, b) == Some(seen)
    ensures Next(c, Len, b) == Some((LenMode(seen.op, seen.val), seen.used))
  {
    hide ReadSymbol, CodeOk, Leaf, AfterLen, LenMode;
    BadMode(0);
    match ReadSymbol(c.len, b)
    case Symbol(s) => LensOp(s);
    case _ =>
  }

  lemma BadMode(length: nat)
    ensures LenMode(64, 0) == Bad && DistMode(length, 64, 0) == Bad
  {
  }

  lemma DistAnswer(c: CodePair, length: nat, b: Bits, seen: Seen)
    requires CodesOk(c) && |c.dist| <= 32 && Answer(Dists, c.dist, b) == Some(seen)
    ensures Next(c, Dist(length), b) == Some((DistMode(length, seen.op, seen.val), seen.used))
  {
    hide ReadSymbol, CodeOk, Leaf, AfterDist, DistMode;
    BadMode(length);
    match ReadSymbol(c.dist, b)
    case Symbol(s) => DistsOp(length, s);
    case _ =>
  }

  lemma StarvedNext(c: CodePair, length: nat, b: Bits)
    requires CodesOk(c) && |c.len| <= 288 && |c.dist| <= 32
    ensures Answer(Lens, c.len, b) == None <==> Next(c, Len, b) == None
    ensures Answer(Dists, c.dist, b) == None <==> Next(c, Dist(length), b) == None
  {
    hide ReadSymbol, CodeOk, Leaf, AfterDist, AfterLen;
  }

  /** No byte is held that is not needed: fewer than eight bits, or too few for what is read next. */
  ghost predicate Sparing(c: CodePair, m: Mode, live: Bits)
    requires CodesOk(c)
  {
    |live| < 8 || (AtBits(m) && Next(c, m, live) == None)
  }

  /** The two codes of a block and their tables. */
  datatype Tables = Tables(lenbits: nat, lencode: seq<Slot>, distbits: nat, distcode: seq<Slot>)

  ghost predicate TablesOk(c: CodePair, t: Tables) {
    Serves(Lens, c.len, t.lenbits, t.lencode) && Serves(Dists, c.dist, t.distbits, t.distcode)
  }

  lemma CodesOfTables(c: CodePair, t: Tables)
    requires TablesOk(c, t)
    ensures CodesOk(c) && |c.len| <= 288 && |c.dist| <= 32
  {
    hide AllWritten, Answer, Look, SeenOf, Kraft, Pow2;
  }

  // ---- the states that read bits ----

  /** The LEN state, without inflate_fast. */
  method ReadLen(h: Hold, ghost c: CodePair, t: Tables, input: seq<byte>, pos: nat)
    returns (ok: bool, pos': nat, m: Mode, ghost used: nat)
    requires h.Valid() && TablesOk(c, t) && CodesOk(c) && pos <= |input| && Sparing(c, Len, h.live)
    modifies h
    ensures h.Valid() && pos <= pos' <= |input|
    ensures ok ==>
      && Next(c, Len, old(h.Unread(input, pos))) == Some((m, used))
      && h.Unread(input, pos') == old(h.Unread(input, pos))[used..] && h.bits < 8
    ensures !ok ==>
      pos' == |input| && Next(c, Len, h.live) == None && h.Unread(input, pos') == old(h.Unread(input, pos))
  {
    hide Serves, LsbNat, Answer, CodeOk, Next, CodesOk, LenMode, Leaf;
    CodesOfTables(c, t);
    OkOfServes(Lens, c.len, t.lenbits, t.lencode);
    StarvedNext(c, 3, h.live);
    var here;
    ghost var all, live0 := h.Unread(input, pos), h.live;
    ok, pos', here, used := LookUp(h, t.lenbits, t.lencode, Lens, c.len, input, pos);
    m := Len;
    if ok {
      LenAnswer(c, all, Seen(here.op, here.val, used));
      if pos' == pos {
        EnoughHeld(Lens, c.len, live0, InputBits(input[pos..]), Seen(here.op, here.val, used));
      }
      m := LenMode(here.op, here.val);
    } else {
      StarvedNext(c, 3, h.live);
    }
  }

  /** A code that the bits held were enough for: they were no surplus. */
  lemma EnoughHeld(ty: CodeType, lens: seq<byte>, live: Bits, rest: Bits, seen: Seen)
    requires |lens| <= MaxSymbols(ty) && CodeOk(ty, lens) && Answer(ty, lens, live + rest) == Some(seen)
    ensures Answer(ty, lens, live) == None ==> seen.used > |live|
  {
    hide CodeOk, Answer;
    if Answer(ty, lens, live) == None {
      AnswerBeyond(ty, lens, live, rest);
    }
  }

  /** The DIST state. */
  method ReadDist(h: Hold, ghost c: CodePair, t: Tables, length: nat, input: seq<byte>, pos: nat)
    returns (ok: bool, pos': nat, m: Mode, ghost used: nat)
    requires h.Valid() && TablesOk(c, t) && CodesOk(c) && pos <= |input| && Sparing(c, Dist(length), h.live)
    modifies h
    ensures h.Valid() && pos <= pos' <= |input|
    ensures ok ==>
      && Next(c, Dist(length), old(h.Unread(input, pos))) == Some((m, used))
      && h.Unread(input, pos') == old(h.Unread(input, pos))[used..] && h.bits < 8
    ensures !ok ==>
      && pos' == |input| && Next(c, Dist(length), h.live) == None
      && h.Unread(input, pos') == old(h.Unread(input, pos))
  {
    hide Serves, LsbNat, Answer, CodeOk, Next, CodesOk, DistMode, Leaf;
    CodesOfTables(c, t);
    OkOfServes(Dists, c.dist, t.distbits, t.distcode);
    StarvedNext(c, length, h.live);
    var here;
    ghost var all, live0 := h.Unread(input, pos), h.live;
    ok, pos', here, used := LookUp(h, t.distbits, t.distcode, Dists, c.dist, input, pos);
    m := Dist(length);
    if ok {
      DistAnswer(c, length, all, Seen(here.op, here.val, used));
      if pos' == pos {
        EnoughHeld(Dists, c.dist, live0, InputBits(input[pos..]), Seen(here.op, here.val, used));
      }
      m := DistMode(length, here.op, here.val);
    } else {
      StarvedNext(c, length, h.live);
    }
  }

  /** The extra bits of LENEXT and DISTEXT. */
  method ReadExtra(h: Hold, extra: nat, input: seq<byte>, pos: nat) returns (ok: bool, pos': nat, v: nat)
    requires h.Valid() && extra <= 13 && pos <= |input| && (h.bits < 8 || h.bits < extra)
    modifies h
    ensures h.Valid() && pos <= pos' <= |input|
    ensures ok ==>
      && extra <= |old(h.Unread(input, pos))| && v == LsbNat(old(h.Unread(input, pos))[..extra])
      && h.Unread(input, pos') == old(h.Unread(input, pos))[extra..] && h.bits < 8
    ensures !ok ==> pos' == |input| && h.bits < extra && h.Unread(input, pos') == old(h.Unread(input, pos))
  {
    hide LsbNat, Peek;
    ok, pos', v := true, pos, 0;
    ghost var all := h.Unread(input, pos);
    if extra > 0 {
      ok, pos' := h.NeedBits(extra, input, pos);
      if !ok {
        return;
      }
      v := h.Bits(0, extra);
      PeekFront(h.live, InputBits(input[pos'..]), extra);
      h.Drop(extra, input, pos');
    } else {
      NoExtra(all);
    }
  }

  lemma PeekFront(live: Bits, rest: Bits, n: nat)
    requires n <= |live|
    ensures Peek(live, 0, n) == LsbNat((live + rest)[..n])
  {
    hide LsbNat;
    assert (live + rest)[..n] == live[..n];
    assert Padded(live, 0 + n)[0..] == live[..n];
  }

  lemma NoExtra(b: Bits)
    ensures LsbNat(b[..0]) == 0 && b[0..] == b
  {
    LsbNothing();
    assert b[..0] == [];
  }

  /** One of the four states that read bits: where the bits lead, or nothing for want of input. */
  method ReadState(h: Hold, ghost c: CodePair, t: Tables, m: Mode, input: seq<byte>, pos: nat)
    returns (ok: bool, pos': nat, m': Mode, ghost used: nat)
    requires h.Valid() && TablesOk(c, t) && CodesOk(c) && pos <= |input|
    requires AtBits(m) && ModeOk(m) && Sparing(c, m, h.live)
    modifies h
    ensures h.Valid() && pos <= pos' <= |input|
    ensures ok ==>
      && Next(c, m, old(h.Unread(input, pos))) == Some((m', used))
      && h.Unread(input, pos') == old(h.Unread(input, pos))[used..] && h.bits < 8
    ensures !ok ==>
      && pos' == |input| && m' == m && Next(c, m, h.live) == None
      && h.Unread(input, pos') == old(h.Unread(input, pos))
  {
    hide TablesOk, LsbNat, CodesOk, ReadSymbol, Pow2, AfterLen, AfterDist;
    m', used := m, 0;
    match m
    case Len =>
      var n;
      ok, pos', n, used := ReadLen(h, c, t, input, pos);
      m' := if ok then n else m;
    case LenExt(length, extra) =>
      var v;
      ok, pos', v := ReadExtra(h, extra, input, pos);
      if ok {
        m', used := Dist(length + v), extra;
      }
    case Dist(length) =>
      var n;
      ok, pos', n, used := ReadDist(h, c, t, length, input, pos);
      m' := if ok then n else m;
    case DistExt(length, offset, extra) =>
      var v;
      ok, pos', v := ReadExtra(h, extra, input, pos);
      if ok {
        m', used := InMatch(offset + v, length), extra;
      }
  }
}
