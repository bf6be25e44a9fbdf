/** The runs data falls into, and the code of each: what the front end of bzlib.c must put into its blocks. */
module Runs {
  import opened Base
  import opened RunLength

  type RunSize = n: int | 1 <= n <= 255 witness 1

  datatype Stretch = Stretch(ch: byte, len: RunSize)

  /** What the runs stand for. */
  function Text(runs: seq<Stretch>): seq<byte> {
    if runs == [] then []
    else Text(runs[..|runs| - 1]) + Repeat<byte>(runs[|runs| - 1].ch, runs[|runs| - 1].len)
  }

  /** Their code: up to three copies, or four and a count. */
  function CodedRuns(runs: seq<Stretch>): seq<byte> {
    if runs == [] then [] else CodedRuns(runs[..|runs| - 1]) + Pair(runs[|runs| - 1].ch, runs[|runs| - 1].len)
  }

  /** A run ends only where the character changes or 255 copies are reached. */
  predicate Apart(r: Stretch, s: Stretch) {
    r.ch != s.ch || r.len == 255
  }

  ghost predicate Maximal(runs: seq<Stretch>) {
    forall i {:trigger runs[i]} :: 0 <= i < |runs| - 1 ==> Apart(runs[i], runs[i + 1])
  }

  lemma RunsPush(runs: seq<Stretch>, r: Stretch)
    ensures Text(runs + [r]) == Text(runs) + Repeat<byte>(r.ch, r.len)
    ensures CodedRuns(runs + [r]) == CodedRuns(runs) + Pair(r.ch, r.len)
  {
    assert (runs + [r])[..|runs|] == runs;
  }

  lemma NoText()
    ensures Text([]) == [] && CodedRuns([]) == []
  {
  }

  lemma {:induction false} TextConcat(a: seq<Stretch>, b: seq<Stretch>)
    ensures Text(a + b) == Text(a) + Text(b)
  {
    hide Text;
    if b == [] {
      assert a + b == a && Text(a) + [] == Text(a);
      NoText();
    } else {
      var k := |b| - 1;
      assert b == b[..k] + [b[k]];
      RunsPush(b[..k], b[k]);
      TextConcat(a, b[..k]);
      RunsPush(a + b[..k], b[k]);
      assert a + b[..k] + [b[k]] == a + b;
      Associate(Text(a), Text(b[..k]), Repeat<byte>(b[k].ch, b[k].len));
    }
  }

  lemma MaximalPush(runs: seq<Stretch>, r: Stretch)
    requires Maximal(runs) && (runs != [] ==> Apart(runs[|runs| - 1], r))
    ensures Maximal(runs + [r])
  {
  }

  lemma MaximalPop(runs: seq<Stretch>, r: Stretch)
    requires Maximal(runs + [r])
    ensures Maximal(runs) && (runs != [] ==> Apart(runs[|runs| - 1], r))
  {
    var all := runs + [r];
    forall i | 0 <= i < |runs| - 1
      ensures Apart(runs[i], runs[i + 1])
    {
      assert all[i] == runs[i];
    }
    if runs != [] {
      assert all[|runs| - 1] == runs[|runs| - 1];
    }
  }

  /** The code of runs is longest, against their text, for runs of four. */
  lemma {:induction false} CodedSize(runs: seq<Stretch>)
    ensures 4 * |CodedRuns(runs)| <= 5 * |Text(runs)|
  {
    if runs != [] {
      CodedSize(runs[..|runs| - 1]);
    }
  }

  // ---- data falls into such runs in one way only ----

  /** How often the last character is repeated at the end. */
  function Tail(s: seq<byte>, c: byte): (n: nat)
    ensures n <= |s|
  {
    if s != [] && s[|s| - 1] == c then 1 + Tail(s[..|s| - 1], c) else 0
  }

  lemma {:induction false} TailRepeat(s: seq<byte>, c: byte, n: nat)
    ensures Tail(s + Repeat<byte>(c, n), c) == Tail(s, c) + n
  {
    if n == 0 {
      assert s + Repeat<byte>(c, 0) == s;
    } else {
      TailRepeat(s, c, n - 1);
      assert (s + Repeat<byte>(c, n))[..|s| + n - 1] == s + Repeat<byte>(c, n - 1);
    }
  }

  /** Before the last of maximal runs, its character has whole runs of 255 only. */
  lemma {:induction false} TailBefore(runs: seq<Stretch>, r: Stretch)
    requires Maximal(runs + [r])
    ensures Tail(Text(runs), r.ch) % 255 == 0
  {
    if runs != [] {
      var k := |runs| - 1;
      MaximalPop(runs, r);
      assert runs[..k] + [runs[k]] == runs;
      RunsPush(runs[..k], runs[k]);
      if runs[k].ch == r.ch {
        TailBefore(runs[..k], runs[k]);
        TailRepeat(Text(runs[..k]), r.ch, runs[k].len);
      }
    }
  }

  lemma SameRemainder(a: nat, b: nat, x: RunSize, y: RunSize)
    requires a % 255 == 0 && b % 255 == 0 && a + x == b + y
    ensures x == y
  {
  }

  lemma LastOfText(runs: seq<Stretch>)
    requires runs != []
    ensures var k := |runs| - 1; |Text(runs)| > 0 && Text(runs)[|Text(runs)| - 1] == runs[k].ch
    ensures var k := |runs| - 1; Text(runs) == Text(runs[..k]) + Repeat<byte>(runs[k].ch, runs[k].len)
  {
  }

  lemma {:induction false} OnlyRuns(a: seq<Stretch>, b: seq<Stretch>)
    requires Maximal(a) && Maximal(b) && Text(a) == Text(b)
    ensures a == b
  {
    hide Text;
    if a == [] || b == [] {
      NoneLeft(a, b);
    } else {
      var i, j := |a| - 1, |b| - 1;
      LastOfText(a);
      LastOfText(b);
      var c := a[i].ch;
      assert a[..i] + [a[i]] == a && b[..j] + [b[j]] == b;
      TailBefore(a[..i], a[i]);
      TailBefore(b[..j], b[j]);
      TailRepeat(Text(a[..i]), c, a[i].len);
      TailRepeat(Text(b[..j]), c, b[j].len);
      SameRemainder(Tail(Text(a[..i]), c), Tail(Text(b[..j]), c), a[i].len, b[j].len);
      MaximalPop(a[..i], a[i]);
      MaximalPop(b[..j], b[j]);
      SameFront(Text(a[..i]), Text(b[..j]), Repeat<byte>(c, a[i].len));
      OnlyRuns(a[..i], b[..j]);
    }
  }

  lemma NoneLeft(a: seq<Stretch>, b: seq<Stretch>)
    requires (a == [] || b == []) && Text(a) == Text(b)
    ensures a == b
  {
  }

  lemma SameFront(x: seq<byte>, y: seq<byte>, z: seq<byte>)
    requires x + z == y + z
    ensures x == y
  {
    assert |x| == |y|;
    assert x == (x + z)[..|x|] && y == (y + z)[..|y|];
  }

  // ---- the code is read back ----

  /** The code of such runs expands to them, in whatever block they are. */
  lemma {:induction false} CodedExpands(runs: seq<Stretch>)
    requires Maximal(runs)
    ensures Expand(CodedRuns(runs)) == Text(runs)
    ensures StateAfter(CodedRuns(runs)) == (if runs == [] || runs[|runs| - 1].len >= 4 then Fresh
                                        else RunState.Run(runs[|runs| - 1].ch, runs[|runs| - 1].len))
  {
    hide Expand, StateAfter, Maximal;
    if runs == [] {
      NoCode();
    } else {
      var k := |runs| - 1;
      assert runs[..k] + [runs[k]] == runs;
      MaximalPop(runs[..k], runs[k]);
      CodedExpands(runs[..k]);
      PushPair(CodedRuns(runs[..k]), runs[k].ch, runs[k].len);
    }
  }

  lemma NoCode()
    ensures Expand([]) == [] && StateAfter([]) == Fresh
  {
  }

  // ---- runs shared out to blocks ----

  /** The runs of one block; `forced` if a flush or the end of the stream closed it. */
  datatype Piece = Piece(runs: seq<Stretch>, forced: bool)

  /** A block is closed as soon as it is full, unless by force; then at most the run being read is added to it. */
  ghost predicate WellFilled(p: Piece, max: int) {
    && p.runs != [] && Maximal(p.runs)
    && (!p.forced ==> |CodedRuns(p.runs)| >= max && |CodedRuns(p.runs[..|p.runs| - 1])| < max)
    && (p.forced && |p.runs| > 1 ==> |CodedRuns(p.runs[..|p.runs| - 2])| < max)
  }

  /** No run is cut in two by a block that was full. */
  ghost predicate Joins(p: Piece, next: seq<Stretch>) {
    p.runs != [] && (!p.forced ==> next != [] && Apart(p.runs[|p.runs| - 1], next[0]))
  }

  ghost predicate WellCut(pieces: seq<Piece>, rest: seq<Stretch>, max: int) {
    && Maximal(rest) && (forall i :: 0 <= i < |pieces| ==> WellFilled(pieces[i], max))
    && (forall i {:trigger pieces[i]} :: 0 <= i < |pieces| - 1 ==> Joins(pieces[i], pieces[i + 1].runs))
    && (pieces != [] ==> Joins(pieces[|pieces| - 1], rest))
  }

  lemma MaximalFront(a: seq<Stretch>, b: seq<Stretch>)
    requires Maximal(a + b)
    ensures Maximal(a) && Maximal(b) && (a != [] && b != [] ==> Apart(a[|a| - 1], b[0]))
  {
    var all := a + b;
    forall i | 0 <= i < |a| - 1
      ensures Apart(a[i], a[i + 1])
    {
      assert all[i] == a[i];
    }
    forall i | 0 <= i < |b| - 1
      ensures Apart(b[i], b[i + 1])
    {
      assert all[|a| + i] == b[i];
    }
    if a != [] {
      assert all[|a| - 1] == a[|a| - 1];
    }
  }

  lemma MaximalJoin(a: seq<Stretch>, b: seq<Stretch>)
    requires Maximal(a) && Maximal(b) && (a != [] && b != [] ==> Apart(a[|a| - 1], b[0]))
    ensures Maximal(a + b)
  {
  }

  /** The block under construction becomes a piece; the run being read stays. */
  lemma PiecePush(pieces: seq<Piece>, p: Piece, pending: seq<Stretch>, max: int)
    requires WellCut(pieces, p.runs + pending, max) && WellFilled(p, max) && (p.forced <==> pending == [])
    ensures WellCut(pieces + [p], pending, max)
  {
    hide Maximal, WellFilled, CodedRuns;
    MaximalFront(p.runs, pending);
    PieceRuns(p, max);
    var more := pieces + [p];
    forall i | 0 <= i < |more| - 1
      ensures Joins(more[i], more[i + 1].runs)
    {
      assert more[i] == pieces[i];
    }
  }

  lemma PieceRuns(p: Piece, max: int)
    requires WellFilled(p, max)
    ensures p.runs != [] && Maximal(p.runs)
  {
  }

  /** All runs, in order. */
  function AllRuns(pieces: seq<Piece>): seq<Stretch> {
    if pieces == [] then [] else AllRuns(pieces[..|pieces| - 1]) + pieces[|pieces| - 1].runs
  }

  /** Where no block was forced, the blocks share out the runs of all that was taken in. */
  lemma {:induction false} UnforcedRuns(pieces: seq<Piece>, rest: seq<Stretch>, max: int)
    requires WellCut(pieces, rest, max) && forall i :: 0 <= i < |pieces| ==> !pieces[i].forced
    ensures Maximal(AllRuns(pieces) + rest)
  {
    hide Maximal, WellFilled;
    if pieces == [] {
      assert [] + rest == rest;
    } else {
      var k := |pieces| - 1;
      PieceRuns(pieces[k], max);
      PiecesFront(pieces, rest, max);
      UnforcedRuns(pieces[..k], pieces[k].runs, max);
      var front := AllRuns(pieces[..k]);
      MaximalJoin(front + pieces[k].runs, rest);
    }
  }

  lemma PiecesFront(pieces: seq<Piece>, rest: seq<Stretch>, max: int)
    requires pieces != [] && WellCut(pieces, rest, max)
    ensures WellCut(pieces[..|pieces| - 1], pieces[|pieces| - 1].runs, max)
  {
    hide WellFilled;
    var k := |pieces| - 1;
    PieceRuns(pieces[k], max);
    if k > 0 {
      assert pieces[k - 1 + 1] == pieces[k];
      assert Joins(pieces[k - 1], pieces[k].runs);
    }
  }
}
