/** inflate on a block's data: bits in, text out, over any calls and buffers. */
module InflateStream {
  import opened Base
  import opened BitHold
  import opened BitString
  import CanonicalCode
  import opened DeflateBits
  import DeflateTokens
  import opened HistoryWindow
  import opened InflateBlock
  import InflateBuild
  import opened InflateCodes
  import opened InflateFast
  import InflateLookup
  import InflateTable
  import opened InflateTrees
  import LsbCode
  import TableSize

  class BlockInflater {
    const win: Inflater
    const h: Hold
    const t: Tables
    ghost const c: CodePair
    var mode: Mode

    ghost predicate Valid()
      reads this, win, win.window, h
    {
      win.Valid() && h.Valid() && TablesOk(c, t) && CodesOk(c) && ModeOk(mode) && Sparing(c, mode, h.live)
    }

    /** inflate behind a block's code tables. */
    constructor (wbits: nat, t: Tables, ghost c: CodePair)
      requires TablesOk(c, t) && CodesOk(c)
      ensures Valid() && fresh(win) && fresh(win.window) && fresh(h) && win.window.Length == Pow2(wbits)
      ensures win.history == [] && h.live == [] && mode == Len && this.c == c && this.t == t
    {
      win := new Inflater(wbits);
      h := new Hold();
      mode := Len;
      this.t, this.c := t, c;
    }

    /** inflate behind the code tables of a later block: what was put out and what is held stay. */
    constructor Behind(win: Inflater, h: Hold, t: Tables, ghost c: CodePair)
      requires TablesOk(c, t) && CodesOk(c) && win.Valid() && h.Valid() && |h.live| < 8
      ensures Valid() && mode == Len && this.win == win && this.h == h && this.c == c && this.t == t
    {
      mode := Len;
      this.win, this.h, this.t, this.c := win, h, t, c;
    }

    /** All output once out[..put] is filled. */
    ghost function Text(out: array<byte>, put: nat): seq<byte>
      requires put <= out.Length
      reads win, out
    {
      win.Full(out, put)
    }

    /** A literal into the output. */
    method PutLiteral(out: array<byte>, put: nat, x: byte)
      requires put < out.Length && out != win.window
      modifies out
      ensures Text(out, put + 1) == old(Text(out, put)) + [x]
    {
      ghost var s := out[..put];
      out[put] := x;
      assert out[..put + 1] == s + [x];
    }

    /** A distance is refused only if it reaches before the first byte, or beyond the window. */
    ghost predicate RefusedRightly(text: seq<byte>, m: Mode) {
      m.TooFar? ==> m.offset > |text| || m.offset > win.window.Length
    }

    lemma RefusedIs(out: array<byte>, put: nat, m: Mode)
      requires win.Valid() && put <= out.Length && (m.TooFar? ==> m.offset > put + Min(win.wsize, |win.history|))
      ensures RefusedRightly(Text(out, put), m)
    {
    }

    /** Between the two points no distance beyond the window was passed. */
    ghost predicate PassedNear(h0: seq<byte>, m0: Mode, b0: Bits, h1: seq<byte>, m1: Mode, b1: Bits)
      requires CodesOk(c)
    {
      Farthest(c, h0, m0, b0) <= Max(win.window.Length, Farthest(c, h1, m1, b1))
    }

    // ---- inflate_fast ----

    /** The match inflate_fast has read. */
    method FastCopy(out: array<byte>, put: nat, offset: nat, length: nat, ghost b: Bits) returns (put': nat, m: Mode)
      requires win.Valid() && CodesOk(c) && put + 258 <= out.Length && out != win.window
      requires ModeOk(InMatch(offset, length))
      modifies out
      ensures put <= put' <= put + 258 && (m.Len? || m.TooFar?) && ModeOk(m) && RefusedRightly(Text(out, put'), m)
      ensures Leads(c, old(Text(out, put)), InMatch(offset, length), b, Text(out, put'), m, b)
    {
      hide Naive, CodesOk, Next, Inflater.Valid, RefusedRightly, Leads, Ahead, Farthest;
      ghost var text := Text(out, put);
      RefusedLeads(c, text, offset, length, b);
      var bad := win.FastMatch(out, put, offset, length);
      put' := if bad then put else put + length;
      m := if bad then TooFar(offset, length) else Len;
      RefusedIs(out, put', m);
      if bad {
        assert Text(out, put) == text;
      } else {
        CopyPart(c, text, offset, length, length, b);
      }
    }

    /** Reading bits, then putting out. */
    lemma ReadThen(text: seq<byte>, m0: Mode, b0: Bits, m1: Mode, b1: Bits, h2: seq<byte>, m2: Mode, b2: Bits)
      requires CodesOk(c) && Same(c, text, m0, b0, m1, b1) && Leads(c, text, m1, b1, h2, m2, b2)
      ensures Leads(c, text, m0, b0, h2, m2, b2)
    {
      hide Ahead, Farthest, CodesOk;
    }

    lemma Stays(text: seq<byte>, m: Mode, b: Bits)
      requires CodesOk(c)
      ensures Leads(c, text, m, b, text, m, b)
    {
      hide Ahead, Farthest, CodesOk;
    }

    /** One round of inflate_fast: a literal, a match, the end of the block, or an error. */
    method FastTurn(out: array<byte>, put: nat, input: seq<byte>, pos: nat, ghost later: Bits)
      returns (put': nat, pos': nat, m: Mode, ghost used: nat)
      requires win.Valid() && h.Valid() && TablesOk(c, t) && CodesOk(c) && h.bits <= 30 && pos + 6 <= |input|
      requires put + 258 <= out.Length && out != win.window
      modifies h, out
      ensures h.Valid() && h.bits <= 30 && pos <= pos' <= pos + 6 && put <= put' <= put + 258
      ensures 1 <= used && h.bits + used == old(h.bits) + 8 * (pos' - pos)
      ensures used <= |old(h.Unread(input, pos))| && h.Unread(input, pos') == old(h.Unread(input, pos))[used..]
      ensures Next(c, Len, old(h.live)) == None ==> used > |old(h.live)|
      ensures ModeOk(m) && (m.Len? || m.Type? || m.Bad? || m.TooFar?) && RefusedRightly(Text(out, put'), m)
      ensures Leads(c, old(Text(out, put)), Len, old(h.Unread(input, pos)) + later,
                    Text(out, put'), m, h.Unread(input, pos') + later)
    {
      hide TablesOk, CodesOk, Next, Inflater.Valid, Hold.Valid, Hold.Unread, Leads, Same, ModeOk, RefusedRightly;
      ghost var text, all := Text(out, put), h.Unread(input, pos);
      put' := put;
      pos', m, used := FastLength(h, c, t, input, pos, text, later);
      ghost var m1, b1 := m, h.Unread(input, pos') + later;
      if m.Lit? {
        LiteralOut(c, text, m.c, b1);
        PutLiteral(out, put, m.c);
        put', m := put + 1, Len;
      } else if m.Dist? {
        ghost var n := used;
        pos', m, used := FastDistance(h, c, t, m.length, input, pos', text, later);
        ghost var m2, b2 := m, h.Unread(input, pos') + later;
        UseMore(all, n, used);
        used := n + used;
        if m.InMatch? {
          put', m := FastCopy(out, put, m.offset, m.length, b2);
        } else {
          Stays(text, m, b2);
        }
        ReadThen(text, m1, b1, m2, b2, Text(out, put'), m, b2);
      } else {
        Stays(text, m, b1);
      }
      PlainMode(Text(out, put'), m);
      ReadThen(text, Len, all + later, m1, b1, Text(out, put'), m, h.Unread(input, pos') + later);
    }

    lemma PlainMode(text: seq<byte>, m: Mode)
      ensures !m.TooFar? ==> RefusedRightly(text, m)
      ensures m.Len? || m.Type? || m.Bad? ==> ModeOk(m)
    {
    }

    /** Bits used twice over. */
    lemma UsedOn(b0: Bits, used: nat, b: Bits, n: nat, b': Bits)
      requires used <= |b0| && b == b0[used..] && n <= |b| && b' == b[n..]
      ensures used + n <= |b0| && b' == b0[used + n..]
    {
    }

    /** No byte more is held than was pulled, once the bits held at the start are used. */
    lemma HeldBound(live0: Bits, used: nat)
      requires CodesOk(c) && Sparing(c, Len, live0) && used >= 1 && (Next(c, Len, live0) == None ==> used > |live0|)
      ensures |live0| <= used + 7
    {
      hide Next, CodesOk;
    }

    /** The loop of inflate_fast: at least one round, and more while six bytes of input and 258 of room are left. */
    method FastRounds(out: array<byte>, put0: nat, input: seq<byte>, pos0: nat, ghost later: Bits)
      returns (put: nat, pos: nat, m: Mode, ghost used: nat)
      requires Valid() && mode == Len && pos0 + 6 <= |input| && put0 + 258 <= out.Length && out != win.window
      modifies h, out
      ensures h.Valid() && put0 <= put <= out.Length && pos0 <= pos <= |input|
      ensures 1 <= used <= |old(h.Unread(input, pos0))| && h.Unread(input, pos) == old(h.Unread(input, pos0))[used..]
      ensures h.bits <= 8 * (pos - pos0) + 7
      ensures ModeOk(m) && (m.Len? || m.Type? || m.Bad? || m.TooFar?) && RefusedRightly(Text(out, put), m)
      ensures Leads(c, old(Text(out, put0)), Len, old(h.Unread(input, pos0)) + later,
                    Text(out, put), m, h.Unread(input, pos) + later)
    {
      hide TablesOk, CodesOk, Next, Inflater.Valid, RefusedRightly, Leads, ModeOk, Hold.Unread, Sparing;
      ghost var live0, all, text0 := h.live, h.Unread(input, pos0), Text(out, put0);
      LeanBits(live0);
      put, pos, m, used := FastTurn(out, put0, input, pos0, later);
      HeldBound(live0, used);
      while m == Len && pos + 6 <= |input| && put + 258 <= out.Length
        invariant h.Valid() && h.bits <= 30 && pos0 <= pos <= |input| && put0 <= put <= out.Length
        invariant 1 <= used <= |all| && h.Unread(input, pos) == all[used..]
        invariant h.bits + used == |live0| + 8 * (pos - pos0)
        invariant |live0| <= used + 7
        invariant ModeOk(m) && (m.Len? || m.Type? || m.Bad? || m.TooFar?) && RefusedRightly(Text(out, put), m)
        invariant Leads(c, text0, Len, all + later, Text(out, put), m, h.Unread(input, pos) + later)
        decreases |h.Unread(input, pos)|
      {
        ghost var n, b, text := used, h.Unread(input, pos), Text(out, put);
        put, pos, m, used := FastTurn(out, put, input, pos, later);
        LeadsOn(c, text0, Len, all + later, text, Len, b + later, Text(out, put), m, h.Unread(input, pos) + later);
        UsedOn(all, n, b, used, h.Unread(input, pos));
        used := n + used;
      }
    }

    /** inflate_fast. It reads no byte beyond the input, and gives none back that it had not pulled. */
    method Fast(out: array<byte>, put0: nat, input: seq<byte>, pos0: nat, ghost later: Bits)
      returns (put: nat, pos: nat)
      requires Valid() && mode == Len && pos0 + 6 <= |input| && put0 + 258 <= out.Length && out != win.window
      modifies this`mode, h, out
      ensures Valid() && put0 <= put <= out.Length && pos0 <= pos <= |input|
      ensures (!AtBits(mode) || mode == Len) && !mode.Lit? && !mode.InMatch?
      ensures |h.Unread(input, pos)| < old(|h.Unread(input, pos0)|) && RefusedRightly(Text(out, put), mode)
      ensures Leads(c, old(Text(out, put0)), Len, old(h.Unread(input, pos0)) + later,
                    Text(out, put), mode, h.Unread(input, pos) + later)
    {
      hide TablesOk, CodesOk, Next, Inflater.Valid, RefusedRightly, Leads, ModeOk;
      ghost var live0 := h.live;
      var m;
      ghost var used;
      put, pos, m, used := FastRounds(out, put0, input, pos0, later);
      pos := GiveBack(h, input, pos0, pos, live0, used);
      mode := m;
    }

    lemma LeanBits(live: Bits)
      requires CodesOk(c) && Sparing(c, Len, live)
      ensures |live| <= 30
    {
      hide CodeOk;
      if |live| >= 15 {
        Plenty(live);
      }
    }

    lemma Plenty(live: Bits)
      requires CodesOk(c) && |live| >= 15
      ensures Next(c, Len, live) != None
    {
      hide CodeOk, ReadSymbol;
      LensKnown();
      AnswerSoon(InflateTable.Lens, c.len, live);
    }

    lemma LensKnown()
      requires CodesOk(c)
      ensures |c.len| <= 288 && CodeOk(InflateTable.Lens, c.len)
    {
      hide CanonicalCode.Kraft, Pow2;
    }

    // ---- the states of inflate ----

    /** The LIT state, with room left. */
    method TurnLit(out: array<byte>, put: nat, ghost b: Bits)
      requires Valid() && mode.Lit? && put < out.Length && out != win.window
      modifies this`mode, out
      ensures Valid() && mode == Len
      ensures Leads(c, old(Text(out, put)), old(mode), b, Text(out, put + 1), mode, b)
      ensures old(Farthest(c, Text(out, put), mode, b)) == Farthest(c, Text(out, put + 1), mode, b)
    {
      hide TablesOk, CodesOk, Next, Inflater.Valid, Naive, ReadSymbol, Leads, Farthest;
      LiteralOut(c, Text(out, put), mode.c, b);
      PutLiteral(out, put, mode.c);
      mode := Len;
    }

    /** The MATCH state, with room left: as much as one source and the room allow. */
    method TurnMatch(out: array<byte>, put: nat, ghost b: Bits) returns (put': nat)
      requires Valid() && mode.InMatch? && put < out.Length && out != win.window
      modifies this`mode, out
      ensures Valid() && put <= put' <= out.Length && (!mode.TooFar? ==> put < put')
      ensures RefusedRightly(Text(out, put'), mode)
      ensures mode.Len? || mode.InMatch? || mode.TooFar?
      ensures Leads(c, old(Text(out, put)), old(mode), b, Text(out, put'), mode, b)
      ensures put == 0 ==> PassedNear(old(Text(out, put)), old(mode), b, Text(out, put'), mode, b)
    {
      hide TablesOk, CodesOk, Next, Naive, Inflater.Valid, RefusedRightly, ReadSymbol, Leads, Farthest;
      var offset, length := mode.offset, mode.length;
      ghost var text := Text(out, put);
      var bad, copy := win.Match(out, put, offset, length);
      put' := put + copy;
      WindowIs();
      if bad {
        RefusedLeads(c, text, offset, length, b);
        assert Text(out, put) == text;
        mode := TooFar(offset, length);
      } else {
        CopyPart(c, text, offset, length, copy, b);
        mode := if copy == length then Len else InMatch(offset, length - copy);
      }
      RefusedIs(out, put', mode);
    }

    lemma WindowIs()
      requires win.Valid()
      ensures win.wsize <= win.window.Length
    {
    }

    /** LEN without inflate_fast, LENEXT, DIST, DISTEXT; `ok` false for want of input. */
    method TurnBits(input: seq<byte>, pos: nat, ghost text: seq<byte>, ghost later: Bits) returns (ok: bool, pos': nat)
      requires Valid() && AtBits(mode) && pos <= |input|
      modifies this`mode, h
      ensures Valid() && pos <= pos' <= |input| && !mode.TooFar?
      ensures ok ==> |h.Unread(input, pos')| < old(|h.Unread(input, pos)|)
                     || (|h.Unread(input, pos')| == old(|h.Unread(input, pos)|) && Rank(mode) < old(Rank(mode)))
      ensures !ok ==> pos' == |input| && mode == old(mode) && Next(c, mode, h.live) == None
      ensures !ok ==> h.Unread(input, pos') == old(h.Unread(input, pos))
      ensures Same(c, text, old(mode), old(h.Unread(input, pos)) + later, mode, h.Unread(input, pos') + later)
      ensures old(Next(c, mode, h.Unread(input, pos))) == None ==> !ok
    {
      hide TablesOk, CodesOk, Next, Inflater.Valid, ModeOk, Ahead, Farthest;
      ghost var m0, all := mode, h.Unread(input, pos);
      var m;
      ghost var used;
      ok, pos', m, used := ReadState(h, c, t, mode, input, pos);
      if ok {
        NextOk(c, m0, all);
        NextProgress(c, m0, all);
        SameNext(c, text, m0, all, m, used, later);
        NextNotFar(m0, all);
        mode := m;
      }
    }

    lemma NextNotFar(m: Mode, b: Bits)
      requires CodesOk(c) && Next(c, m, b).Some?
      ensures !Next(c, m, b).value.0.TooFar?
    {
      hide CodesOk, ReadSymbol;
    }

    /** One turn of the switch, or `leave` for want of input or of room, at the end of the block or at an error. */
    method Turn(out: array<byte>, put: nat, input: seq<byte>, pos: nat, ghost later: Bits)
      returns (leave: bool, put': nat, pos': nat)
      requires Valid() && put <= out.Length && out != win.window && pos <= |input|
      requires RefusedRightly(Text(out, put), mode)
      modifies this`mode, h, out
      ensures Valid() && put <= put' <= out.Length && pos <= pos' <= |input| && RefusedRightly(Text(out, put'), mode)
      ensures Leads(c, old(Text(out, put)), old(mode), old(h.Unread(input, pos)) + later,
                    Text(out, put'), mode, h.Unread(input, pos') + later)
      ensures out.Length == 1 ==>
        PassedNear(old(Text(out, put)), old(mode), old(h.Unread(input, pos)) + later,
                   Text(out, put'), mode, h.Unread(input, pos') + later)
      ensures AtBits(old(mode)) && Next(c, old(mode), old(h.Unread(input, pos))) == None ==>
        leave && mode == old(mode) && put' == put && pos' == |input| && h.live == old(h.Unread(input, pos))
      ensures leave ==> mode.Type? || mode.Bad? || mode.TooFar? || (!AtBits(mode) && put' == out.Length)
                        || (AtBits(mode) && pos' == |input| && Next(c, mode, h.live) == None)
      ensures !leave ==> |h.Unread(input, pos')| < old(|h.Unread(input, pos)|)
                         || (|h.Unread(input, pos')| == old(|h.Unread(input, pos)|)
                             && Weight(put', out) < old(Weight(put, out)))
    {
      hide TablesOk, CodesOk, Next, Inflater.Valid, Hold.Valid, ModeOk, Hold.Unread, Sparing, Leads, Same, Farthest;
      leave, put', pos' := false, put, pos;
      ghost var text, m0, b0 := Text(out, put), mode, h.Unread(input, pos) + later;
      Stays(text, mode, b0);
      if mode.Type? || mode.Bad? || mode.TooFar? {
        leave := true;
      } else if AtBits(mode) {
        if mode == Len && |input| - pos >= 6 && out.Length - put >= 258 {
          PlentyUnread(input, pos);
          put', pos' := Fast(out, put, input, pos, later);
        } else {
          var ok;
          ok, pos' := TurnBits(input, pos, text, later);
          leave := !ok;
          ReadOnly(text, m0, b0, mode, h.Unread(input, pos') + later);
          if !ok {
            AllHeld(input);
          }
          PlainMode(text, mode);
        }
      } else if put == out.Length {
        leave := true;
      } else if mode.Lit? {
        TurnLit(out, put, b0);
        put' := put + 1;
        PlainMode(Text(out, put'), mode);
      } else {
        put' := TurnMatch(out, put, b0);
      }
    }

    lemma ReadOnly(text: seq<byte>, m0: Mode, b0: Bits, m: Mode, b: Bits)
      requires CodesOk(c) && Same(c, text, m0, b0, m, b)
      ensures Leads(c, text, m0, b0, text, m, b) && Farthest(c, text, m0, b0) == Farthest(c, text, m, b)
    {
      hide Ahead, Farthest, CodesOk;
    }

    /** Six bytes always hold a code. */
    lemma PlentyUnread(input: seq<byte>, pos: nat)
      requires CodesOk(c) && pos + 6 <= |input|
      ensures Next(c, Len, h.Unread(input, pos)) != None
    {
      hide Next, CodesOk;
      Plenty(h.Unread(input, pos));
    }

    lemma AllHeld(input: seq<byte>)
      ensures h.Unread(input, |input|) == h.live
    {
      assert input[|input|..] == [];
      assert h.live + [] == h.live;
    }

    /** What still can happen without more bits: room to fill, and states to pass. */
    ghost function Weight(put: nat, out: array<byte>): nat
      requires put <= out.Length
      reads this
    {
      8 * (out.Length - put) + Rank(mode)
    }

    /**
     * inflate, as far as a block's data goes: one call with the next piece of input and `room` bytes of space;
     * `later` is whatever the caller will supply afterwards. What it has put out, with what all the bits not yet
     * used lead to, is what they led to before; and it stops only at the end of the block or at an error, without
     * room for what is to be put out, or without the bits of a whole code or field.
     */
    method Call(input: seq<byte>, room: nat, ghost later: Bits) returns (output: seq<byte>, used: nat)
      requires Valid() && !mode.Type? && !mode.Bad? && !mode.TooFar?
      modifies this, win, win.window, h
      ensures |output| <= room && used <= |input| && h.Valid() && ModeOk(mode) && Sparing(c, mode, h.live)
      ensures Leads(c, old(win.history), old(mode), old(h.Unread(input, 0)) + later,
                    old(win.history) + output, mode, h.Unread(input, used) + later)
      ensures room == 1 ==>
        PassedNear(old(win.history), old(mode), old(h.Unread(input, 0)) + later,
                   old(win.history) + output, mode, h.Unread(input, used) + later)
      ensures RefusedRightly(old(win.history) + output, mode)
      ensures AtBits(old(mode)) && Next(c, old(mode), old(h.Unread(input, 0))) == None ==>
        output == [] && mode == old(mode) && used == |input| && h.live == old(h.Unread(input, 0))
      ensures !mode.Bad? && !mode.TooFar? ==> Valid() && win.history == old(win.history) + output
      ensures mode.Type? || mode.Bad? || mode.TooFar? || (!AtBits(mode) && |output| == room)
              || (AtBits(mode) && used == |input| && Next(c, mode, h.live) == None)
    {
      hide TablesOk, CodesOk, Next, Inflater.Valid, Hold.Valid, ModeOk, Hold.Unread, Sparing, HistoryWindow.Holds;
      hide Leads, Farthest;
      var out := new byte[room](_ => 0);
      var put, leave := 0, false;
      used := 0;
      ghost var text0, m0, b0 := win.history, mode, h.Unread(input, 0) + later;
      ghost var starved := AtBits(mode) && Next(c, mode, h.Unread(input, 0)) == None;
      assert Text(out, 0) == win.history;
      Stays(text0, m0, b0);
      while !leave
        invariant Valid() && put <= room && used <= |input| && win.history == old(win.history)
        invariant RefusedRightly(Text(out, put), mode)
        invariant Leads(c, text0, m0, b0, Text(out, put), mode, h.Unread(input, used) + later)
        invariant room == 1 ==> PassedNear(text0, m0, b0, Text(out, put), mode, h.Unread(input, used) + later)
        invariant starved ==>
          if leave then put == 0 && mode == m0 && used == |input| && h.live == old(h.Unread(input, 0))
          else put == 0 && mode == m0 && used == 0 && h.Unread(input, 0) == old(h.Unread(input, 0))
        invariant leave ==> mode.Type? || mode.Bad? || mode.TooFar? || (!AtBits(mode) && put == room)
                            || (AtBits(mode) && used == |input| && Next(c, mode, h.live) == None)
        decreases !leave, |h.Unread(input, used)|, Weight(put, out)
      {
        ghost var text, m, b := Text(out, put), mode, h.Unread(input, used) + later;
        leave, put, used := Turn(out, put, input, used, later);
        LeadsOn(c, text0, m0, b0, text, m, b, Text(out, put), mode, h.Unread(input, used) + later);
      }
      output := out[..put];
      if win.wsize != 0 || (put > 0 && !mode.Bad? && !mode.TooFar?) {
        win.UpdateWindow(output);
      } else {
        assert win.history + [] == win.history;
      }
    }
  }

  /** How a block's data ended. */
  predicate Tells(m: Mode, ending: Ending) {
    match ending
    case Wanting => AtBits(m)
    case Over(_) => m.Type?
    case Invalid => m.Bad?
    case BeforeStart => m.TooFar?
  }

  /** The story is at its end. */
  lemma AtTheEnd(c: CodePair, text: seq<byte>, m: Mode, b: Bits)
    requires CodesOk(c) && (AtBits(m) ==> Next(c, m, b) == None) && (m.TooFar? ==> m.offset > |text|)
    requires AtBits(m) || m.Type? || m.Bad? || m.TooFar?
    ensures Ahead(c, text, m, b).text == text && Tells(m, Ahead(c, text, m, b).ending)
    ensures m.Type? ==> Ahead(c, text, m, b).ending == Over(b)
  {
    hide CodesOk, Next;
  }

  /** The input, cut after `pos`. */
  lemma CutAfter(h: Hold, z: seq<byte>, pos: nat, input: seq<byte>, used: nat)
    requires pos + |input| <= |z| && input == z[pos..pos + |input|] && used <= |input|
    ensures h.Unread(input, used) + InputBits(z[pos + |input|..]) == h.Unread(z, pos + used)
  {
    hide InputBits;
    var far := z[pos + |input|..];
    assert z[pos + used..] == input[used..] + far;
    InputConcat(input[used..], far);
    Associate(h.live, InputBits(input[used..]), InputBits(far));
  }

  /** One call with at most `n` of the bytes left: it ends, or takes or gives at least one byte, or starves. */
  method OneCall(d: BlockInflater, z: seq<byte>, pos: nat, n: nat, room: nat) returns (output: seq<byte>, pos': nat)
    requires d.Valid() && !d.mode.Type? && !d.mode.Bad? && !d.mode.TooFar? && pos <= |z| && n > 0 && room > 0
    modifies d, d.win, d.win.window, d.h
    ensures pos <= pos' <= |z| && d.h.Valid() && ModeOk(d.mode) && Sparing(d.c, d.mode, d.h.live)
    ensures Leads(d.c, old(d.win.history), old(d.mode), old(d.h.Unread(z, pos)),
                  old(d.win.history) + output, d.mode, d.h.Unread(z, pos'))
    ensures room == 1 ==>
      d.PassedNear(old(d.win.history), old(d.mode), old(d.h.Unread(z, pos)),
                   old(d.win.history) + output, d.mode, d.h.Unread(z, pos'))
    ensures d.RefusedRightly(old(d.win.history) + output, d.mode)
    ensures !d.mode.Bad? && !d.mode.TooFar? ==> d.Valid() && d.win.history == old(d.win.history) + output
    ensures d.mode.Type? || d.mode.Bad? || d.mode.TooFar? || pos' > pos || output != []
            || (AtBits(d.mode) && pos' == |z| && Next(d.c, d.mode, d.h.live) == None)
    ensures AtBits(d.mode) && pos' == |z| ==> Next(d.c, d.mode, d.h.live) == None
  {
    hide TablesOk, CodesOk, Next, BlockInflater.Valid, Leads, Sparing, Hold.Unread, InputBits, Hold.Valid, ModeOk;
    hide BlockInflater.RefusedRightly, BlockInflater.PassedNear;
    var input := z[pos..if pos + n <= |z| then pos + n else |z|];
    ghost var later := InputBits(z[pos + |input|..]);
    CutAfter(d.h, z, pos, input, 0);
    var used;
    output, used := d.Call(input, room, later);
    CutAfter(d.h, z, pos, input, used);
    pos' := pos + used;
  }

  // ---- the data of a block ----

  /** Stopped at a distance within the output. */
  predicate Refuses(text: seq<byte>, m: Mode) {
    m.TooFar? && 0 < m.offset <= |text|
  }

  /**
   * What became of a block's data: `b0` are all its bits, behind `text0`; `text` is all output now and `b` are the
   * bits not used. Text and verdict are those of reading symbol after symbol and copying each match from all output
   * so far. Only a distance that is met in them and beyond the window of `w` bytes may be refused where that
   * reading goes on.
   */
  ghost predicate Inflates(c: CodePair, w: nat, text0: seq<byte>, b0: Bits, text: seq<byte>, m: Mode, b: Bits)
    requires CodesOk(c)
  {
    var s := Ahead(c, text0, Len, b0);
    && Leads(c, text0, Len, b0, text, m, b)
    && if Refuses(text, m) then text <= s.text && w < m.offset <= Farthest(c, text0, Len, b0)
       else text == s.text && Tells(m, s.ending) && (m.Type? ==> s.ending == Over(b))
  }

  /** If no distance met is beyond the window, none is refused; and none is beyond the largest window. */
  lemma NearIsExact(c: CodePair, w: nat, text0: seq<byte>, b0: Bits, text: seq<byte>, m: Mode, b: Bits)
    requires CodesOk(c) && Inflates(c, w, text0, b0, text, m, b)
    requires Farthest(c, text0, Len, b0) <= w || w >= 32768
    ensures var s := Ahead(c, text0, Len, b0);
      text == s.text && Tells(m, s.ending) && (m.Type? ==> s.ending == Over(b))
  {
    hide Ahead, Farthest, Leads, CodesOk;
    LenOk();
    FarthestBound(c, text0, Len, b0);
  }

  /** Every call has one byte of room. */
  ghost predicate ByteByByte(schedule: nat -> (nat, nat)) {
    forall i :: schedule(i).1 == 1
  }

  /** No further call is made. */
  predicate Stopped(m: Mode, atEnd: bool) {
    m.Type? || m.Bad? || m.TooFar? || (AtBits(m) && atEnd)
  }

  /**
   * The rest of a block's data, behind any output and any bits held, however its bytes and its output room are cut
   * into calls and whenever inflate_fast is used. Which distances beyond the window are refused depends on the
   * room; with one byte of it a call, all are.
   */
  method InflateRest(d: BlockInflater, z: seq<byte>, schedule: nat -> (nat, nat))
    returns (output: seq<byte>, taken: nat)
    requires d.Valid() && d.mode == Len && forall i :: schedule(i).0 > 0 && schedule(i).1 > 0
    modifies d, d.win, d.win.window, d.h
    ensures taken <= |z|
    ensures Inflates(d.c, d.win.window.Length, old(d.win.history), old(d.h.Unread(z, 0)),
                     old(d.win.history) + output, d.mode, d.h.Unread(z, taken))
    ensures ByteByByte(schedule) && old(Farthest(d.c, d.win.history, Len, d.h.Unread(z, 0))) > d.win.window.Length ==>
      Refuses(old(d.win.history) + output, d.mode)
    ensures d.mode.Type? ==> d.Valid() && |d.h.live| < 8 && d.win.history == old(d.win.history) + output
  {
    hide TablesOk, CodesOk, Next, BlockInflater.Valid, Ahead, Farthest, Leads, Sparing, Hold.Unread, InputBits;
    hide Hold.Valid, ModeOk, BlockInflater.RefusedRightly, BlockInflater.PassedNear, Inflates;
    ghost var c, text0, b0 := d.c, d.win.history, d.h.Unread(z, 0);
    output, taken := [], 0;
    var i := 0;
    var going := true;
    assert text0 + [] == text0;
    Begins(d, text0, b0);
    while going
      invariant taken <= |z| && d.h.Valid() && ModeOk(d.mode) && Sparing(c, d.mode, d.h.live)
      invariant d.RefusedRightly(text0 + output, d.mode)
      invariant Leads(c, text0, Len, b0, text0 + output, d.mode, d.h.Unread(z, taken))
      invariant ByteByByte(schedule) ==> d.PassedNear(text0, Len, b0, text0 + output, d.mode, d.h.Unread(z, taken))
      invariant going ==> d.Valid() && d.win.history == text0 + output
      invariant going ==> !d.mode.Type? && !d.mode.Bad? && !d.mode.TooFar?
      invariant !going ==> Stopped(d.mode, taken == |z|) && (AtBits(d.mode) ==> Next(c, d.mode, d.h.live) == None)
      invariant d.mode.Type? ==> d.Valid() && d.win.history == text0 + output
      decreases going, |z| - taken + |Ahead(c, text0, Len, b0).text| - |text0 + output|
    {
      var (n, room) := schedule(i);
      ghost var text, m, b := text0 + output, d.mode, d.h.Unread(z, taken);
      var more;
      more, taken := OneCall(d, z, taken, n, room);
      assert text + more == text0 + (output + more);
      output := output + more;
      i := i + 1;
      Goes(d, text0, b0, text, m, b, text0 + output, d.h.Unread(z, taken));
      going := !Stopped(d.mode, taken == |z|);
    }
    Ends(d, text0, b0, text0 + output, z, taken);
  }

  lemma Begins(d: BlockInflater, text: seq<byte>, b: Bits)
    requires d.Valid()
    ensures d.h.Valid() && CodesOk(d.c) && ModeOk(d.mode) && Sparing(d.c, d.mode, d.h.live)
    ensures Leads(d.c, text, d.mode, b, text, d.mode, b) && d.PassedNear(text, d.mode, b, text, d.mode, b)
    ensures !d.mode.TooFar? ==> d.RefusedRightly(text, d.mode)
  {
    hide TablesOk, CodesOk, Ahead, Farthest, Hold.Valid, ModeOk, Sparing, Inflater.Valid;
  }

  /** One more call. */
  lemma Goes(d: BlockInflater, text0: seq<byte>, b0: Bits, text1: seq<byte>, m1: Mode, b1: Bits, text: seq<byte>,
          b: Bits)
    requires CodesOk(d.c) && Leads(d.c, text0, Len, b0, text1, m1, b1) && Leads(d.c, text1, m1, b1, text, d.mode, b)
    ensures Leads(d.c, text0, Len, b0, text, d.mode, b) && |text| <= |Ahead(d.c, text0, Len, b0).text|
    ensures d.PassedNear(text0, Len, b0, text1, m1, b1) && d.PassedNear(text1, m1, b1, text, d.mode, b) ==>
      d.PassedNear(text0, Len, b0, text, d.mode, b)
  {
    hide CodesOk, Ahead, Farthest;
    AheadKeeps(d.c, text, d.mode, b);
  }

  /** The last call. */
  lemma Ends(d: BlockInflater, text0: seq<byte>, b0: Bits, text: seq<byte>, z: seq<byte>, taken: nat)
    requires CodesOk(d.c) && taken <= |z| && Stopped(d.mode, taken == |z|) && d.RefusedRightly(text, d.mode)
    requires ModeOk(d.mode) && (AtBits(d.mode) ==> Next(d.c, d.mode, d.h.live) == None)
    requires Leads(d.c, text0, Len, b0, text, d.mode, d.h.Unread(z, taken))
    ensures Inflates(d.c, d.win.window.Length, text0, b0, text, d.mode, d.h.Unread(z, taken))
    ensures Farthest(d.c, text0, Len, b0) > d.win.window.Length
            && d.PassedNear(text0, Len, b0, text, d.mode, d.h.Unread(z, taken)) ==>
      Refuses(text, d.mode)
    ensures Sparing(d.c, d.mode, d.h.live) && d.mode.Type? ==> |d.h.live| < 8
  {
    hide CodesOk, Next, Ahead, Farthest;
    var m, b := d.mode, d.h.Unread(z, taken);
    AheadKeeps(d.c, text, m, b);
    if taken == |z| {
      assert z[|z|..] == [] && InputBits([]) == [];
      assert d.h.live + [] == d.h.live;
    }
    if Refuses(text, m) {
      RefusedLeads(d.c, text, m.offset, m.length, b);
    } else {
      AtTheEnd(d.c, text, m, b);
      NoneAhead(d.c, text, m, b);
    }
  }

  /** The data of a first block. */
  method InflateAll(wbits: nat, t: Tables, ghost c: CodePair, z: seq<byte>, schedule: nat -> (nat, nat))
    returns (output: seq<byte>, mode: Mode, taken: nat, ghost rest: Bits)
    requires TablesOk(c, t) && CodesOk(c) && forall i :: schedule(i).0 > 0 && schedule(i).1 > 0
    ensures taken <= |z| && Inflates(c, Pow2(wbits), [], InputBits(z), output, mode, rest)
    ensures ByteByByte(schedule) && Farthest(c, [], Len, InputBits(z)) > Pow2(wbits) ==> Refuses(output, mode)
    ensures Farthest(c, [], Len, InputBits(z)) <= Pow2(wbits) || wbits >= 15 ==>
      output == Ahead(c, [], Len, InputBits(z)).text && Tells(mode, Ahead(c, [], Len, InputBits(z)).ending)
    ensures |rest| >= 8 * (|z| - taken) && rest[|rest| - 8 * (|z| - taken)..] == InputBits(z[taken..])
    ensures mode.Type? ==> |rest| < 8 * (|z| - taken) + 8
  {
    hide TablesOk, CodesOk, BlockInflater.Valid, Ahead, Farthest, InputBits, Inflates, Pow2;
    var d := new BlockInflater(wbits, t, c);
    AllUnread(d, z);
    output, taken := InflateRest(d, z, schedule);
    mode, rest := d.mode, d.h.Unread(z, taken);
    assert [] + output == output;
    if Farthest(c, [], Len, InputBits(z)) <= Pow2(wbits) || wbits >= 15 {
      LargeWindow(wbits);
      NearIsExact(c, Pow2(wbits), [], InputBits(z), output, mode, rest);
    }
  }

  lemma AllUnread(d: BlockInflater, z: seq<byte>)
    requires d.h.live == []
    ensures d.h.Unread(z, 0) == InputBits(z)
  {
    hide InputBits;
    assert z[0..] == z && [] + InputBits(z) == InputBits(z);
  }

  lemma LargeWindow(wbits: nat)
    ensures wbits >= 15 ==> Pow2(wbits) >= 32768
  {
    if wbits >= 15 {
      Pow2Monotone(15, wbits);
      assert Pow2(15) == 32768;
    }
  }

  /**
   * A block that spells tokens whose distances fit the window, and ends, behind any output and in the middle of a
   * byte: what it adds is that of the tokens one after the other, up to the first whose distance reaches before
   * the first byte, and behind the end-of-block code lies what was there.
   */
  method InflateTokens(d: BlockInflater, z: seq<byte>, schedule: nat -> (nat, nat),
                       ghost x: seq<DeflateTokens.Item>, ghost pad: Bits)
    returns (output: seq<byte>, taken: nat)
    requires d.Valid() && d.mode == Len && forall i :: schedule(i).0 > 0 && schedule(i).1 > 0
    requires DeflateTokens.ItemsOk(d.c, x) && DeflateTokens.HasCode(d.c.len, 256)
    requires d.h.Unread(z, 0) == DeflateTokens.Spelled(d.c, x) + (CanonicalCode.CodeBits(d.c.len, 256) + pad)
    requires d.win.window.Length >= 32768
          || DeflateTokens.Within(DeflateTokens.Tokens(d.c, x), d.win.window.Length)
    modifies d, d.win, d.win.window, d.h
    ensures var f := DeflateTokens.Feed(DeflateTokens.Decoded(old(d.win.history), false), DeflateTokens.Tokens(d.c, x));
      old(d.win.history) + output == f.text && (if f.bad then d.mode.TooFar? else d.mode.Type?) && taken <= |z|
    ensures d.mode.Type? ==> d.Valid() && d.h.Unread(z, taken) == pad && |d.h.live| < 8
                             && d.win.history == old(d.win.history) + output
  {
    hide BlockInflater.Valid, CodesOk, Ahead, Farthest, InputBits, DeflateTokens.Feed, CanonicalCode.CodeBits;
    hide DeflateTokens.ItemsOk, DeflateTokens.Within, Inflates, Hold.Unread;
    Begins(d, d.win.history, d.h.Unread(z, 0));
    ghost var w, text0, b0 := d.win.window.Length, d.win.history, d.h.Unread(z, 0);
    DeflateTokens.BlockPlays(d.c, text0, x, pad, w);
    output, taken := InflateRest(d, z, schedule);
    NearIsExact(d.c, w, text0, b0, text0 + output, d.mode, d.h.Unread(z, taken));
  }

  // ---- eight bits held where a code begins ----

  /** A code longer than eight bits, and the byte that is its beginning. */
  lemma FirstByte(c: CodePair, s: nat) returns (x: byte)
    requires CodesOk(c) && s < |c.len| && c.len[s] > 8
    ensures InputBits([x]) == CanonicalCode.CodeBits(c.len, s)[..8] && Next(c, Len, InputBits([x])) == None
  {
    hide CanonicalCode.CodeBits, ReadSymbol, Pow2, LsbCode.LsbBits, LsbCode.LsbNat;
    var b := CanonicalCode.CodeBits(c.len, s)[..8];
    Pow2Values();
    LsbCode.LsbLess(b);
    x := LsbCode.LsbNat(b);
    LsbCode.LsbRoundTrip(x, 8);
    LsbCode.LsbInjective(LsbCode.LsbBits(x, 8), b);
    OneInput(x);
    BeginningStarves(c.len, s, 8);
  }

  lemma OneInput(x: byte)
    ensures InputBits([x]) == LsbCode.LsbBits(x, 8)
  {
    assert [x][1..] == [] && InputBits([]) == [];
  }

  /**
   * The input: a block's data that begins with that byte, given alone. The call takes it and stays at the code,
   * with eight bits held; the next call, with six bytes and room for 258, enters inflate_fast so.
   */
  method HoldsEight(wbits: nat, t: Tables, ghost c: CodePair, x: byte, room: nat) returns (d: BlockInflater)
    requires TablesOk(c, t) && CodesOk(c) && Next(c, Len, InputBits([x])) == None
    ensures fresh(d) && d.Valid() && d.mode == Len && d.h.bits == 8 && d.h.live == InputBits([x])
  {
    hide TablesOk, CodesOk, Next, InputBits;
    d := new BlockInflater(wbits, t, c);
    AllUnread(d, [x]);
    var output, used := d.Call([x], room, []);
  }

  // ---- with the tables of inflate_table ----

  /** The roots inflate asks for. */
  const LENBITS := 9
  const DISTBITS := 6

  /** inflate_table takes these lengths, and has room for their table. */
  ghost predicate Accepted(ty: InflateTable.CodeType, lens: seq<byte>, bits: nat) {
    && !Refused(ty, lens)
    && (InflateTable.NoCodes(lens) || !InflateBuild.TooMuch(ty, TableSize.Total(JobOf(ty, lens, bits))))
  }

  predicate LengthsOk(ty: InflateTable.CodeType, lens: seq<byte>) {
    |lens| <= InflateTable.MaxSymbols(ty) && forall s :: 0 <= s < |lens| ==> lens[s] <= InflateTable.MAXBITS
  }

  lemma AnyRoom(ty: InflateTable.CodeType, lens: seq<byte>, bits: nat)
    requires ty != InflateTable.Codes
    ensures InflateBuild.Roomy(JobOf(ty, lens, bits), InflateBuild.Room(ty))
  {
    hide TableSize.Total;
  }

  /** One of the two tables of a block. */
  method OneTable(ty: InflateTable.CodeType, lens: seq<byte>, bits: nat)
    returns (ok: bool, root: nat, t: seq<InflateTable.Slot>)
    requires ty != InflateTable.Codes && LengthsOk(ty, lens)
    ensures ok <==> Accepted(ty, lens, bits)
    ensures ok ==> Serves(ty, lens, root, t)
  {
    hide Refused, InflateLookup.AllFindable, CanonicalCode.Kraft, Pow2, Serves, JobOf, LongestOf, InflateTable.NoCodes;
    hide TableSize.Total;
    AnyRoom(ty, lens, bits);
    var table := new InflateTable.Slot[InflateBuild.Room(ty)](_ => InflateTable.Unset);
    var r := BuildTable(ty, lens, bits, table);
    ok, root, t := r.Built?, 0, table[..];
    if ok {
      root := r.bits;
      BuiltServes(ty, lens, bits, t, r);
    }
  }

  /**
   * From the code lengths of a block and its bits to its output: inflate_table for both codes, then inflate on the
   * data in any pieces, with any room, behind any output and any bits held. At the end of the block window and bits
   * are as the next block needs them.
   */
  method InflateBlockData(win: Inflater, h: Hold, len: seq<byte>, dist: seq<byte>, z: seq<byte>,
                          schedule: nat -> (nat, nat))
    returns (ok: bool, output: seq<byte>, mode: Mode, taken: nat)
    requires win.Valid() && h.Valid() && |h.live| < 8
    requires LengthsOk(InflateTable.Lens, len) && LengthsOk(InflateTable.Dists, dist)
    requires forall i :: schedule(i).0 > 0 && schedule(i).1 > 0
    modifies win, win.window, h
    ensures ok <==> Accepted(InflateTable.Lens, len, LENBITS) && Accepted(InflateTable.Dists, dist, DISTBITS)
    ensures ok ==> CodesOk(CodePair(len, dist)) && taken <= |z|
    ensures ok ==>
      Inflates(CodePair(len, dist), win.window.Length, old(win.history), old(h.Unread(z, 0)),
               old(win.history) + output, mode, h.Unread(z, taken))
    ensures ok && ByteByByte(schedule)
            && Farthest(CodePair(len, dist), old(win.history), Len, old(h.Unread(z, 0))) > win.window.Length ==>
      Refuses(old(win.history) + output, mode)
    ensures ok && mode.Type? ==>
      win.Valid() && h.Valid() && |h.live| < 8 && win.history == old(win.history) + output
  {
    hide Accepted, Serves, Ahead, Farthest, CodesOk, InputBits, Inflates, Inflater.Valid, Hold.Valid, Hold.Unread;
    var lenbits, lencode, distbits, distcode;
    ok, lenbits, lencode := OneTable(InflateTable.Lens, len, LENBITS);
    output, mode, taken := [], Len, 0;
    if ok {
      ok, distbits, distcode := OneTable(InflateTable.Dists, dist, DISTBITS);
      if ok {
        ghost var c := CodePair(len, dist);
        var t := Tables(lenbits, lencode, distbits, distcode);
        CodesOfTables(c, t);
        var d := new BlockInflater.Behind(win, h, t, c);
        output, taken := InflateRest(d, z, schedule);
        mode := d.mode;
      }
    }
  }
}
