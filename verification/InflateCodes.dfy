/** The tables inflate_table builds, used: a look at one reads the next symbol of the code. */
module InflateCodes {
  import opened Base
  import opened BitString
  import opened CanonicalCode
  import opened DeflateBits
  import opened InflateLookup
  import opened InflateTable
  import opened InflateTrees
  import opened LsbCode

  /** What an entry tells, and how many bits it stands for in all. */
  datatype Seen = Seen(op: nat, val: nat, used: nat)

  ghost function SeenOf(r: Option<(Slot, nat)>): Option<Seen> {
    match r
    case Some((Entry(op, _, val), used)) => Some(Seen(op, val, used))
    case _ => None
  }

  /** What the code itself says. */
  ghost function Answer(ty: CodeType, lens: seq<byte>, b: Bits): Option<Seen>
    requires |lens| <= MaxSymbols(ty)
  {
    match ReadSymbol(lens, b)
    case Starved => None
    case NoSuchCode => Some(Seen(64, 0, 1))
    case Symbol(s) => Some(Seen(Leaf(ty, s, 0).op, Leaf(ty, s, 0).val, lens[s]))
  }

  /** Every slot a look can meet is written and inside the table. */
  ghost predicate AllWritten(root: nat, t: seq<Slot>) {
    && 1 <= root <= MAXBITS && Pow2(root) <= |t|
    && forall x :: 0 <= x < Pow2(root) ==> SlotOk(root, t, x)
  }

  ghost predicate SlotOk(root: nat, t: seq<Slot>, x: nat)
    requires x < |t|
  {
    && t[x].Entry? && 1 <= t[x].bits
    && (1 <= t[x].op <= 15 ==>
        && t[x].bits == root && t[x].val + Pow2(t[x].op) <= |t|
        && forall y :: t[x].val <= y < t[x].val + Pow2(t[x].op) ==> t[y].Entry?)
  }

  /** A table that answers for a code. */
  ghost predicate Serves(ty: CodeType, lens: seq<byte>, root: nat, t: seq<Slot>) {
    && CodeOk(ty, lens) && AllWritten(root, t)
    && forall b: Bits :: SeenOf(Look(root, t, b)) == Answer(ty, lens, b)
  }

  // ---- a complete code ----

  lemma LeafAnswer(ty: CodeType, s: nat, n: nat)
    requires s < MaxSymbols(ty)
    ensures Leaf(ty, s, n).op == Leaf(ty, s, 0).op && Leaf(ty, s, n).val == Leaf(ty, s, 0).val
  {
  }

  lemma CompleteAnswers(j: Job, t: seq<Slot>, b: Bits)
    requires AllFindable(j, t) && Kraft(j.lens, j.top) == Pow2(j.top) && CodeOk(j.ty, j.lens)
    requires Kraft(j.lens, MAXBITS) == Pow2(MAXBITS)
    ensures SeenOf(Look(j.root, t, b)) == Answer(j.ty, j.lens, b)
  {
    hide Look, Kraft, Pow2, CodeBits, Leaf, AllFindable;
    var s := LookupNeedsWholeCode(j, t, b);
    if CodeBits(j.lens, s) <= b {
      ReadsCode(j.ty, j.lens, b, s);
      LeafAnswer(j.ty, s, if j.lens[s] <= j.root then j.lens[s] else SubLen(j, s));
    } else if r: nat :| r < |j.lens| && j.lens[r] > 0 && CodeBits(j.lens, r) <= b {
      LookupFindsCode(j, t, b, r);
      assert false;
    }
  }

  lemma CompleteSlot(j: Job, t: seq<Slot>, x: nat)
    requires AllFindable(j, t) && Kraft(j.lens, j.top) == Pow2(j.top) && x < Pow2(j.root)
    ensures x < |t| && SlotOk(j.root, t, x)
  {
    hide Kraft, Pow2, CodeBits, LsbNat;
    var s := RootHolds(j, t, x);
    assert Findable(j, t, s);
    if j.lens[s] > j.root {
      forall y | t[x].val <= y < t[x].val + Pow2(t[x].op)
        ensures t[y].Entry?
      {
        SubWritten(j, t, s, y - t[x].val);
        assert t[x].val + (y - t[x].val) == y;
      }
    }
  }

  lemma CompleteServes(j: Job, t: seq<Slot>)
    requires AllFindable(j, t) && Kraft(j.lens, j.top) == Pow2(j.top) && CodeOk(j.ty, j.lens)
    requires Kraft(j.lens, MAXBITS) == Pow2(MAXBITS)
    ensures Serves(j.ty, j.lens, j.root, t)
  {
    hide Kraft, Pow2, SlotOk, Look, Answer, CodeOk, SeenOf;
    FindableRoot(j, t);
    forall x | 0 <= x < Pow2(j.root)
      ensures SlotOk(j.root, t, x)
    {
      CompleteSlot(j, t, x);
    }
    forall b: Bits
      ensures SeenOf(Look(j.root, t, b)) == Answer(j.ty, j.lens, b)
    {
      CompleteAnswers(j, t, b);
    }
  }

  lemma FindableRoot(j: Job, t: seq<Slot>)
    requires AllFindable(j, t)
    ensures 1 <= j.root <= MAXBITS && Pow2(j.root) <= |t|
  {
  }

  // ---- a single code of one bit, or none ----

  /** A root of one bit: a look is at the first bit, or at a clear one before it is there. */
  lemma LookOneBit(t: seq<Slot>, b: Bits)
    requires |t| >= 2 && t[0].Entry? && t[1].Entry? && t[0].bits == t[1].bits == 1
    requires !(1 <= t[0].op <= 15) && !(1 <= t[1].op <= 15)
    ensures Look(1, t, b) == if b == [] then None else Some((t[if b[0] then 1 else 0], 1))
  {
    var p := Padded(b, 1);
    assert p == [b != [] && b[0]] && p[0..] == p;
    assert LsbNat(p) == if p[0] then 1 else 0 by {
      LsbPush([], p[0]);
      assert [] + [p[0]] == p;
      LsbNothing();
      assert Pow2(0) == 1;
    }
  }

  /** What the slot of the first bit tells. */
  function SlotAnswer(t: seq<Slot>, b: Bits): Seen
    requires |t| >= 2 && t[0].Entry? && t[1].Entry? && b != []
  {
    var x := if b[0] then 1 else 0;
    Seen(t[x].op, t[x].val, 1)
  }

  lemma OneBitServes(ty: CodeType, lens: seq<byte>, t: seq<Slot>)
    requires CodeOk(ty, lens) && |lens| <= MaxSymbols(ty) && Kraft(lens, MAXBITS) < Pow2(MAXBITS)
    requires |t| >= 2 && t[0].Entry? && t[1] == BadCode(1) && t[0].bits == 1 && !(1 <= t[0].op <= 15)
    requires forall b: Bits :: b != [] ==> Answer(ty, lens, b) == Some(SlotAnswer(t, b))
    ensures Serves(ty, lens, 1, t)
  {
    hide Kraft, Look, Answer, CodeOk, SeenOf, AllWritten, Pow2;
    OneBitWritten(t);
    forall b: Bits
      ensures SeenOf(Look(1, t, b)) == Answer(ty, lens, b)
    {
      if b == [] {
        NothingRead(ty, lens);
      }
      OneBitSeen(t, b);
    }
  }

  lemma OneBitWritten(t: seq<Slot>)
    requires |t| >= 2 && t[0].Entry? && t[1] == BadCode(1) && t[0].bits == 1 && !(1 <= t[0].op <= 15)
    ensures AllWritten(1, t)
  {
    assert Pow2(1) == 2;
  }

  lemma OneBitSeen(t: seq<Slot>, b: Bits)
    requires |t| >= 2 && t[0].Entry? && t[1] == BadCode(1) && t[0].bits == 1 && !(1 <= t[0].op <= 15)
    ensures SeenOf(Look(1, t, b)) == if b == [] then None else Some(SlotAnswer(t, b))
  {
    hide Look;
    LookOneBit(t, b);
  }

  lemma NothingRead(ty: CodeType, lens: seq<byte>)
    requires |lens| <= MaxSymbols(ty)
    ensures Answer(ty, lens, []) == None
  {
  }

  /** No code at all: every bit is an error. */
  lemma NoneServes(ty: CodeType, lens: seq<byte>, t: seq<Slot>)
    requires CodeOk(ty, lens) && NoCodes(lens) && |t| >= 2 && t[0] == BadCode(1) && t[1] == BadCode(1)
    ensures Serves(ty, lens, 1, t)
  {
    hide Pow2, Kraft, Serves, ReadSymbol;
    NoKraft(lens, MAXBITS);
    PowPositive(MAXBITS);
    forall b: Bits | b != []
      ensures Answer(ty, lens, b) == Some(SlotAnswer(t, b))
    {
      NoneRead(lens, b);
    }
    OneBitServes(ty, lens, t);
  }

  lemma NoneRead(lens: seq<byte>, b: Bits)
    requires NoCodes(lens) && b != [] && Kraft(lens, MAXBITS) < Pow2(MAXBITS)
    ensures ReadSymbol(lens, b) == NoSuchCode
  {
    hide Kraft, Pow2;
  }

  lemma {:induction false} NoKraft(lens: seq<byte>, top: nat)
    requires NoCodes(lens)
    ensures Kraft(lens, top) == 0
  {
    if lens != [] {
      NoKraft(lens[..|lens| - 1], top);
    }
  }

  /** One symbol with the code 0, and the marker behind the other bit. */
  lemma SingleServes(j: Job, t: seq<Slot>)
    requires AllFindable(j, t) && CodeOk(j.ty, j.lens) && Kraft(j.lens, MAXBITS) < Pow2(MAXBITS) && !NoCodes(j.lens)
    requires j.root == 1 && |t| >= 2 && t[1] == BadCode(1)
    ensures Serves(j.ty, j.lens, 1, t)
  {
    hide Kraft, Pow2, Serves, LsbNat, CodeBits, Leaf, Answer;
    var s :| 0 <= s < |j.lens| && j.lens[s] != 0;
    SingleFound(j, t, s);
    SingleCodeClear(j.lens, s);
    SingleSlot(j, t, s);
    forall b: Bits | b != []
      ensures Answer(j.ty, j.lens, b) == Some(SlotAnswer(t, b))
    {
      SingleAnswers(j, t, s, b);
    }
    OneBitServes(j.ty, j.lens, t);
  }

  lemma SingleFound(j: Job, t: seq<Slot>, s: nat)
    requires AllFindable(j, t) && OnlyOneBit(j.lens) && s < |j.lens| && j.lens[s] != 0
    ensures Good(j) && Coded(j, s) && j.lens[s] == 1 && InRoot(j, t, s)
  {
    hide Kraft, Pow2, CodeBits, Leaf;
    assert Coded(j, s) && j.lens[s] == 1;
    assert Findable(j, t, s);
  }

  /** The one code is a clear bit. */
  lemma SingleCodeClear(lens: seq<byte>, s: nat)
    requires s < |lens| && lens[s] == 1 && OnlyOneBit(lens) && Kraft(lens, MAXBITS) < Pow2(MAXBITS)
    ensures CodeBits(lens, s) == [false]
  {
    hide Kraft, Occupied, First, CodeOf, ToBits;
    AtTop(lens, 1);
    OccupiedIsKraft(lens, 1);
    OneBitCount(lens);
    FirstOfOne(lens, s);
    NoneBefore(lens, s);
    ClearBit();
  }

  lemma OneBitCount(lens: seq<byte>)
    ensures Pow2(1) == 2 && Occupied(lens, 1) == multiset(lens)[1]
  {
  }

  lemma FirstOfOne(lens: seq<byte>, s: nat)
    requires s < |lens| && lens[s] == 1
    ensures CodeOf(lens, s) == multiset(lens[..s])[1]
  {
  }

  /** Of one occurrence there is none before it. */
  lemma NoneBefore(lens: seq<byte>, s: nat)
    requires s < |lens| && lens[s] == 1 && multiset(lens)[1] <= 1
    ensures multiset(lens[..s])[1] == 0
  {
    assert lens == lens[..s] + [lens[s]] + lens[s + 1..];
  }

  lemma ClearBit()
    ensures ToBits(0, 1) == [false]
  {
  }

  lemma SingleSlot(j: Job, t: seq<Slot>, s: nat)
    requires Good(j) && Coded(j, s) && j.lens[s] == 1 && InRoot(j, t, s) && j.root == 1 && |t| >= 2
    requires CodeBits(j.lens, s) == [false]
    ensures t[0] == Leaf(j.ty, s, 1)
  {
    hide Kraft, CodeBits, Leaf;
    assert Pow2(1) == 2;
    KeyOfZero(j.lens, s);
    assert 0 % 2 == 0;
  }

  lemma SingleAnswers(j: Job, t: seq<Slot>, s: nat, b: Bits)
    requires CodeOk(j.ty, j.lens) && Kraft(j.lens, MAXBITS) < Pow2(MAXBITS) && s < |j.lens| && j.lens[s] == 1
    requires CodeBits(j.lens, s) == [false] && b != []
    requires |t| >= 2 && t[1] == BadCode(1) && t[0] == Leaf(j.ty, s, 1)
    ensures Answer(j.ty, j.lens, b) == Some(SlotAnswer(t, b))
  {
    hide Kraft, CodeBits, Leaf, Pow2;
    if b[0] {
      OnlyClear(j.lens, b);
    } else {
      assert [false] <= b;
      ReadsCode(j.ty, j.lens, b, s);
      LeafAnswer(j.ty, s, 1);
    }
  }

  lemma OnlyClear(lens: seq<byte>, b: Bits)
    requires OnlyOneBit(lens) && Kraft(lens, MAXBITS) < Pow2(MAXBITS) && b != [] && b[0]
    ensures ReadSymbol(lens, b) == NoSuchCode
  {
    hide Kraft, CodeBits, Pow2;
    var f := FindCode(lens, b, |lens|);
    if f.Some? {
      SingleCodeClear(lens, f.value);
      assert false;
    }
  }

  // ---- what a call leaves ----

  /** Lengths that are not refused are those of a code. */
  lemma NotRefused(ty: CodeType, lens: seq<byte>)
    requires |lens| <= MaxSymbols(ty) && (forall s :: 0 <= s < |lens| ==> lens[s] <= MAXBITS) && !Refused(ty, lens)
    ensures CodeOk(ty, lens)
  {
    hide Kraft, Pow2;
    if NoCodes(lens) {
      NoKraft(lens, MAXBITS);
    }
  }

  /** Whatever code a call of inflate_table accepts, its table serves. */
  lemma BuiltServes(ty: CodeType, lens: seq<byte>, bits: nat, t: seq<Slot>, r: Result)
    requires ty != Codes && |lens| <= MaxSymbols(ty) && (forall s :: 0 <= s < |lens| ==> lens[s] <= MAXBITS)
    requires r.Built? && !Refused(ty, lens) && |t| >= 2
    requires NoCodes(lens) ==> r.bits == 1 && t[..2] == [BadCode(1), BadCode(1)]
    requires !NoCodes(lens) ==> r.bits == JobOf(ty, lens, bits).root && AllFindable(JobOf(ty, lens, bits), t)
    requires !NoCodes(lens) && Kraft(lens, MAXBITS) == Pow2(MAXBITS) ==>
      Kraft(lens, LongestOf(lens)) == Pow2(LongestOf(lens))
    requires !NoCodes(lens) && Kraft(lens, MAXBITS) < Pow2(MAXBITS) ==> r.bits == 1 && t[1] == BadCode(1)
    ensures Serves(ty, lens, r.bits, t)
  {
    hide Kraft, Pow2, AllFindable, Serves, LongestOf, ShortestOf;
    NotRefused(ty, lens);
    if NoCodes(lens) {
      assert t[..2][0] == t[0] && t[..2][1] == t[1];
      NoneServes(ty, lens, t);
    } else if Kraft(lens, MAXBITS) < Pow2(MAXBITS) {
      SingleServes(JobOf(ty, lens, bits), t);
    } else {
      CompleteServes(JobOf(ty, lens, bits), t);
    }
  }

  // ---- how many bits an answer takes ----

  lemma AnswerMore(ty: CodeType, lens: seq<byte>, a: Bits, b: Bits)
    requires CodeOk(ty, lens) && Answer(ty, lens, a).Some?
    ensures Answer(ty, lens, a + b) == Answer(ty, lens, a)
  {
    hide ReadSymbol, CodeOk, Leaf;
    ReadMore(ty, lens, a, b);
  }

  /** What only more bits can tell uses more than there were. */
  lemma AnswerBeyond(ty: CodeType, lens: seq<byte>, a: Bits, b: Bits)
    requires CodeOk(ty, lens) && Answer(ty, lens, a) == None && Answer(ty, lens, a + b).Some?
    ensures Answer(ty, lens, a + b).value.used > |a|
  {
    hide ReadSymbol, CodeOk, Leaf;
    ReadBeyond(lens, a, b);
  }

  /** An answer stays within the bits that gave it. */
  lemma AnswerWithin(ty: CodeType, lens: seq<byte>, b: Bits)
    requires CodeOk(ty, lens) && Answer(ty, lens, b).Some?
    ensures 1 <= Answer(ty, lens, b).value.used <= |b| && Answer(ty, lens, b).value.used <= MAXBITS
  {
    hide Kraft, Pow2, Leaf;
  }

  /** Fifteen bits always suffice. */
  lemma AnswerSoon(ty: CodeType, lens: seq<byte>, b: Bits)
    requires CodeOk(ty, lens) && |b| >= MAXBITS
    ensures Answer(ty, lens, b).Some?
  {
    hide Kraft, Pow2, CodeBits, Leaf;
    if Kraft(lens, MAXBITS) == Pow2(MAXBITS) {
      var s := CompleteCovers(Job(lens, ty, 1, MAXBITS), b[..MAXBITS]);
      var code := CodeBits(lens, s);
      assert code == b[..|code|];
      ReadsCode(ty, lens, b, s);
    }
  }
}
