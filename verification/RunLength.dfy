/** The initial run-length coding of bzlib.c: four equal characters are followed by a repeat count. */
module RunLength {
  import opened Base

  /** Where a reader of a coded block stands: nothing pending, 1-3 equal characters seen, or a count expected. */
  datatype RunState = Fresh | Run(ch: byte, k: nat) | Full(ch: byte)

  function Step(s: RunState, c: byte): RunState {
    match s
    case Fresh => Run(c, 1)
    case Run(ch, k) => if c != ch then Run(c, 1) else if k >= 3 then Full(c) else Run(c, k + 1)
    case Full(_) => Fresh
  }

  function Emit(s: RunState, c: byte): seq<byte> {
    match s
    case Fresh => [c]
    case Run(_, _) => [c]
    case Full(ch) => Repeat<byte>(ch, c)
  }

  function StateAfter(b: seq<byte>): RunState {
    if b == [] then Fresh else Step(StateAfter(b[..|b| - 1]), b[|b| - 1])
  }

  /** What a coded block stands for. */
  function Expand(b: seq<byte>): seq<byte> {
    if b == [] then [] else Expand(b[..|b| - 1]) + Emit(StateAfter(b[..|b| - 1]), b[|b| - 1])
  }

  /** A block that does not stop between four equal characters and their count. */
  predicate Complete(b: seq<byte>) {
    !StateAfter(b).Full?
  }

  lemma ExpandPush(b: seq<byte>, c: byte)
    ensures StateAfter(b + [c]) == Step(StateAfter(b), c)
    ensures Expand(b + [c]) == Expand(b) + Emit(StateAfter(b), c)
  {
    assert (b + [c])[..|b|] == b;
  }

  lemma ExpandAt(b: seq<byte>, i: nat)
    requires i < |b|
    ensures StateAfter(b[..i + 1]) == Step(StateAfter(b[..i]), b[i])
    ensures Expand(b[..i + 1]) == Expand(b[..i]) + Emit(StateAfter(b[..i]), b[i])
  {
    assert b[..i + 1] == b[..i] + [b[i]];
    ExpandPush(b[..i], b[i]);
  }

  /** The code of one run, as add_pair_to_block writes it. */
  function Pair(c: byte, n: nat): (s: seq<byte>)
    requires 0 < n <= 255
    ensures 0 < |s| <= 5
  {
    if n < 4 then Repeat<byte>(c, n) else Repeat<byte>(c, 4) + [n - 4]
  }

  /** A new run of `c` may start here: the reader will not take it for a continuation. */
  predicate MayStart(s: RunState, c: byte) {
    s.Fresh? || (s.Run? && s.ch != c)
  }

  lemma RepeatAdd(x: seq<byte>, c: byte, m: nat, n: nat)
    ensures x + Repeat<byte>(c, m) + Repeat<byte>(c, n) == x + Repeat<byte>(c, m + n)
  {
  }

  lemma PushRepeat(b: seq<byte>, c: byte, n: nat)
    requires MayStart(StateAfter(b), c) && 0 < n <= 4
    ensures Expand(b + Repeat<byte>(c, n)) == Expand(b) + Repeat<byte>(c, n)
    ensures StateAfter(b + Repeat<byte>(c, n)) == if n == 4 then Full(c) else Run(c, n)
  {
    hide StateAfter, Expand;
    if n == 1 {
      assert Repeat<byte>(c, 1) == [c];
      ExpandPush(b, c);
    } else {
      PushRepeat(b, c, n - 1);
      assert Repeat<byte>(c, n) == Repeat<byte>(c, n - 1) + [c];
      assert b + Repeat<byte>(c, n) == (b + Repeat<byte>(c, n - 1)) + [c];
      ExpandPush(b + Repeat<byte>(c, n - 1), c);
    }
  }

  lemma PairSplit(b: seq<byte>, c: byte, n: nat)
    requires 4 <= n <= 255
    ensures b + Pair(c, n) == b + Repeat<byte>(c, 4) + [n - 4]
  {
    assert b + (Repeat<byte>(c, 4) + [n - 4]) == b + Repeat<byte>(c, 4) + [n - 4];
  }

  lemma PushCount(d: seq<byte>, c: byte, m: byte)
    requires StateAfter(d) == Full(c)
    ensures Expand(d + [m]) == Expand(d) + Repeat<byte>(c, m) && StateAfter(d + [m]) == Fresh
  {
    ExpandPush(d, m);
  }

  /** Appending the code of a run of 1..255 equal characters appends exactly that run. */
  lemma PushPair(b: seq<byte>, c: byte, n: nat)
    requires MayStart(StateAfter(b), c) && 0 < n <= 255
    ensures Expand(b + Pair(c, n)) == Expand(b) + Repeat<byte>(c, n)
    ensures StateAfter(b + Pair(c, n)) == if n < 4 then Run(c, n) else Fresh
  {
    hide StateAfter, Expand;
    if n < 4 {
      PushRepeat(b, c, n);
    } else {
      PushRepeat(b, c, 4);
      PairSplit(b, c, n);
      PushCount(b + Repeat<byte>(c, 4), c, n - 4);
      RepeatAdd(Expand(b), c, 4, n - 4);
    }
  }
}
