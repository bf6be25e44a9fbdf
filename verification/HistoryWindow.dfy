/** inflate.c and inffast.c: the circular window, and match copies against copying from the full history. */
module HistoryWindow {
  import opened Base

  // ---- the naive copy of section 3.2.3 of RFC 1951 ----

  /** Append `n` bytes, each the one `d` back: source and destination may overlap. */
  function Naive(h: seq<byte>, d: nat, n: nat): (r: seq<byte>)
    requires 0 < d <= |h|
    ensures |r| == |h| + n && h <= r
    decreases n
  {
    if n == 0 then h else Naive(h + [h[|h| - d]], d, n - 1)
  }

  lemma {:induction false} NaiveAdd(h: seq<byte>, d: nat, m: nat, n: nat)
    requires 0 < d <= |h|
    ensures Naive(Naive(h, d, m), d, n) == Naive(h, d, m + n)
    decreases m
  {
    if m > 0 {
      NaiveAdd(h + [h[|h| - d]], d, m - 1, n);
      assert m - 1 + n == m + n - 1;
    }
  }

  lemma NaiveOne(h: seq<byte>, d: nat)
    requires 0 < d <= |h|
    ensures Naive(h, d, 1) == h + [h[|h| - d]]
  {
  }

  /** One byte at a time. */
  lemma NaivePush(h: seq<byte>, d: nat, n: nat)
    requires 0 < d <= |h|
    ensures Naive(h, d, n + 1) == Naive(h, d, n) + [Naive(h, d, n)[|h| + n - d]]
  {
    hide Naive;
    NaiveAdd(h, d, n, 1);
    NaiveOne(Naive(h, d, n), d);
  }

  // ---- the window ----

  function Min(a: int, b: int): int {
    if a < b then a else b
  }

  /** Where the byte `d` back is kept. */
  function Back(wsize: nat, wnext: nat, d: nat): int {
    if d <= wnext then wnext - d else wsize + wnext - d
  }

  /** The window holds the last whave bytes of `h`, ending just before wnext; unused before any output. */
  ghost predicate Holds(w: seq<byte>, wsize: nat, wnext: nat, whave: nat, h: seq<byte>) {
    if wsize == 0 then whave == 0 && wnext == 0 && h == []
    else
      && |w| == wsize && wnext < wsize && whave == Min(wsize, |h|) && (whave < wsize ==> wnext == whave)
      && forall d :: 1 <= d <= whave ==> w[Back(wsize, wnext, d)] == h[|h| - d]
  }

  /** `b` is `a` with `s` written at `at`. */
  ghost predicate Written(a: seq<byte>, b: seq<byte>, at: nat, s: seq<byte>) {
    && |a| == |b| && at + |s| <= |a|
    && (forall i {:trigger b[i]} :: 0 <= i < |a| ==> b[i] == if at <= i < at + |s| then s[i - at] else a[i])
  }

  /** zmemcpy into the window. */
  method MemCpy(w: array<byte>, at: nat, s: seq<byte>)
    requires at + |s| <= w.Length
    modifies w
    ensures Written(old(w[..]), w[..], at, s)
  {
    ghost var a := w[..];
    var i := 0;
    while i < |s|
      invariant 0 <= i <= |s|
      invariant forall k {:trigger w[k]} :: 0 <= k < w.Length ==> w[k] == if at <= k < at + i then s[k - at] else a[k]
    {
      w[at + i] := s[i];
      i := i + 1;
    }
  }

  /** At least a whole window was written: its last wsize bytes fill it. */
  lemma Refilled(w: seq<byte>, wsize: nat, h: seq<byte>, s: seq<byte>)
    requires 0 < wsize <= |s| && w == s[|s| - wsize..]
    ensures Holds(w, wsize, 0, wsize, h + s)
  {
  }

  /** Less than a window, no wrap. */
  lemma Advanced(w: seq<byte>, w': seq<byte>, wsize: nat, wnext: nat, whave: nat, h: seq<byte>, s: seq<byte>,
          wnext': nat, whave': nat)
    requires wsize > 0 && Holds(w, wsize, wnext, whave, h) && |s| <= wsize - wnext && |s| < wsize
    requires Written(w, w', wnext, s)
    requires wnext' == if wnext + |s| == wsize then 0 else wnext + |s|
    requires whave' == if whave < wsize then whave + |s| else whave
    ensures Holds(w', wsize, wnext', whave', h + s)
  {
    var h' := h + s;
    assert whave' == Min(wsize, |h'|);
    forall d | 1 <= d <= whave'
      ensures w'[Back(wsize, wnext', d)] == h'[|h'| - d]
    {
      var p := Back(wsize, wnext', d);
      if d > |s| {
        assert p == Back(wsize, wnext, d - |s|);
        assert w'[p] == w[p] == h[|h| - (d - |s|)];
      } else {
        assert p == wnext + |s| - d;
      }
    }
  }

  /** Less than a window, wrapping: the tail goes to the front. */
  lemma Wrapped(w: seq<byte>, w1: seq<byte>, w': seq<byte>, wsize: nat, wnext: nat, whave: nat, h: seq<byte>,
          s: seq<byte>)
    requires wsize > 0 && Holds(w, wsize, wnext, whave, h) && wsize - wnext < |s| < wsize
    requires Written(w, w1, wnext, s[..wsize - wnext]) && Written(w1, w', 0, s[wsize - wnext..])
    ensures Holds(w', wsize, |s| - (wsize - wnext), wsize, h + s)
  {
    var dist := wsize - wnext;
    var h', wnext' := h + s, |s| - dist;
    forall d | 1 <= d <= wsize
      ensures w'[Back(wsize, wnext', d)] == h'[|h'| - d]
    {
      var p := Back(wsize, wnext', d);
      if d > |s| {
        assert p == Back(wsize, wnext, d - |s|);
        assert w'[p] == w1[p] == w[p] == h[|h| - (d - |s|)];
      } else if d <= wnext' {
        assert w'[p] == s[dist..][p] == s[|s| - d];
      } else {
        assert w'[p] == w1[p] == s[..dist][p - wnext];
      }
    }
  }

  class Inflater {
    const window: array<byte>
    var wsize: nat
    var wnext: nat
    var whave: nat
    ghost var history: seq<byte>     // everything output by earlier calls

    ghost predicate Valid()
      reads this, window
    {
      window.Length > 0 && (wsize == 0 || wsize == window.Length) && Holds(window[..], wsize, wnext, whave, history)
    }

    constructor (wbits: nat)
      ensures Valid() && fresh(window) && window.Length == Pow2(wbits) && history == []
    {
      window := new byte[Pow2(wbits)](_ => 0);
      wsize, wnext, whave, history := 0, 0, 0, [];
    }

    /** updatewindow, at the end of a call that wrote `s`. */
    method UpdateWindow(s: seq<byte>)
      requires Valid()
      modifies this, window
      ensures Valid() && history == old(history) + s && wsize == window.Length
    {
      hide Holds, Written;
      if wsize == 0 {
        NothingYet(window[..], window.Length, wnext, whave, history);
        wsize, wnext, whave := window.Length, 0, 0;
      }
      HoldsSizes(window[..], wsize, wnext, whave, history);
      ghost var h, w := history, window[..];
      history := history + s;
      if |s| >= wsize {
        MemCpy(window, 0, s[|s| - wsize..]);
        WholeCopy(w, window[..], s[|s| - wsize..]);
        Refilled(window[..], wsize, h, s);
        wnext, whave := 0, wsize;
        return;
      }
      var dist := if wsize - wnext > |s| then |s| else wsize - wnext;
      MemCpy(window, wnext, s[..dist]);
      if dist < |s| {
        ghost var w1 := window[..];
        MemCpy(window, 0, s[dist..]);
        Wrapped(w, w1, window[..], wsize, wnext, whave, h, s);
        wnext, whave := |s| - dist, wsize;
      } else {
        assert s[..dist] == s;
        var next := if wnext + dist == wsize then 0 else wnext + dist;
        var have := if whave < wsize then whave + dist else whave;
        Advanced(w, window[..], wsize, wnext, whave, h, s, next, have);
        wnext, whave := next, have;
      }
    }

    static lemma NothingYet(w: seq<byte>, wsize: nat, wnext: nat, whave: nat, h: seq<byte>)
      requires 0 < wsize == |w| && Holds(w, 0, wnext, whave, h)
      ensures Holds(w, wsize, 0, 0, h)
    {
    }

    static lemma HoldsSizes(w: seq<byte>, wsize: nat, wnext: nat, whave: nat, h: seq<byte>)
      requires Holds(w, wsize, wnext, whave, h) && wsize > 0
      ensures wnext < wsize && whave <= wsize == |w|
    {
    }

    static lemma WholeCopy(a: seq<byte>, b: seq<byte>, s: seq<byte>)
      requires Written(a, b, 0, s) && |s| == |a|
      ensures b == s
    {
    }

    // ---- copying into the output buffer of the current call ----

    /** All output ever, when the current call has filled out[..put]. */
    ghost function Full(out: array<byte>, put: nat): seq<byte>
      reads this, out
      requires put <= out.Length
    {
      history + out[..put]
    }

    /** The byte put by a copy, in terms of the full history. */
    static lemma PutNext(h: seq<byte>, o: seq<byte>, s: seq<byte>, d: nat, i: nat, c: byte)
      requires 0 < d <= |h + o| && h + s == Naive(h + o, d, i) && c == (h + s)[|h + o| + i - d]
      ensures h + (s + [c]) == Naive(h + o, d, i + 1)
    {
      NaivePush(h + o, d, i);
      assert h + (s + [c]) == h + s + [c];
    }

    /** out[at] = c, where c is the byte d back. */
    method Put(out: array<byte>, put: nat, i: nat, c: byte, d: nat, ghost o: seq<byte>)
      requires put + i < out.Length && |o| == put && 0 < d <= |history + o|
      requires Full(out, put + i) == Naive(history + o, d, i) && c == Full(out, put + i)[|history + o| + i - d]
      modifies out
      ensures Full(out, put + i + 1) == Naive(history + o, d, i + 1) && out[..put + i] == old(out[..put + i])
    {
      hide Naive;
      ghost var s := out[..put + i];
      PutNext(history, o, s, d, i, c);
      out[put + i] := c;
      assert out[..put + i + 1] == s + [c];
    }

    /** The byte `e` back of the history is in the window. */
    lemma Kept(e: nat)
      requires Valid() && 1 <= e <= whave
      ensures wsize > 0 && e <= |history| && 0 <= Back(wsize, wnext, e) < wsize == window.Length
      ensures window[Back(wsize, wnext, e)] == history[|history| - e]
    {
      assert window[..][Back(wsize, wnext, e)] == history[|history| - e];
    }

    /** Copy `n` bytes from window[from..], which lie `d` back. */
    method CopyWindow(out: array<byte>, put: nat, from: nat, n: nat, d: nat)
      requires Valid() && put + n <= out.Length && out != window
      requires put < d && d - put <= whave && n <= d - put && from == Back(wsize, wnext, d - put)
      requires d - put > wnext ==> n <= d - put - wnext
      modifies out
      ensures out[..put] == old(out[..put]) && d <= |old(Full(out, put))|
      ensures Full(out, put + n) == Naive(old(Full(out, put)), d, n)
    {
      hide Naive, Holds;
      ghost var o := out[..put];
      Kept(d - put);
      NaiveNone(history + o, d);
      var i := 0;
      while i < n
        invariant 0 <= i <= n && out[..put] == o && Full(out, put + i) == Naive(history + o, d, i)
      {
        Kept(d - put - i);
        ghost var was := out[..put + i];
        assert was[..put] == out[..put];
        Put(out, put, i, window[from + i], d, o);
        assert out[..put] == was[..put];
        i := i + 1;
      }
    }

    static lemma NaiveNone(h: seq<byte>, d: nat)
      requires 0 < d <= |h|
      ensures Naive(h, d, 0) == h
    {
    }

    /** Copy `n` bytes from d back in the output itself; the ranges may overlap. */
    method CopyOutput(out: array<byte>, put: nat, n: nat, d: nat)
      requires put + n <= out.Length && 0 < d <= put
      modifies out
      ensures out[..put] == old(out[..put])
      ensures Full(out, put + n) == Naive(old(Full(out, put)), d, n)
    {
      hide Naive;
      ghost var o := out[..put];
      NaiveNone(history + o, d);
      var i := 0;
      while i < n
        invariant 0 <= i <= n && out[..put] == o && Full(out, put + i) == Naive(history + o, d, i)
      {
        ghost var was := out[..put + i];
        assert was[..put] == out[..put] && was[put + i - d] == out[put + i - d];
        Put(out, put, i, out[put + i - d], d, o);
        assert out[..put] == was[..put];
        i := i + 1;
      }
    }

    /** How much of a match one source serves: the window up to its end or up to wnext, or the output without limit. */
    static function SourceRun(wnext: nat, put: nat, offset: nat, length: nat): nat {
      if offset <= put then length else if offset - put > wnext then offset - put - wnext else offset - put
    }

    /**
     * The MATCH state of inflate, once: `bad` if the distance reaches beyond the window,
     * else some bytes of the match are copied, as many as one source and the space allow.
     */
    method Match(out: array<byte>, put: nat, offset: nat, length: nat) returns (bad: bool, copy: nat)
      requires Valid() && put < out.Length && length > 0 && offset > 0 && out != window
      modifies out
      ensures bad <==> offset > put + Min(wsize, |history|)
      ensures bad ==> copy == 0 && out[..] == old(out[..])
      ensures !bad ==> 0 < copy <= length && put + copy <= out.Length && out[..put] == old(out[..put])
      ensures !bad ==> copy == Min(Min(SourceRun(wnext, put, offset, length), length), out.Length - put)
      ensures !bad ==>
        offset <= |old(Full(out, put))| && Full(out, put + copy) == Naive(old(Full(out, put)), offset, copy)
    {
      hide Naive;
      bad, copy := false, 0;
      var left := out.Length - put;
      HaveIsMin(window[..], wsize, wnext, whave, history);
      if offset > put {
        copy := offset - put;
        if copy > whave {
          bad, copy := true, 0;
          return;
        }
        var from;
        if copy > wnext {
          copy := copy - wnext;
          from := wsize - copy;
        } else {
          from := wnext - copy;
        }
        copy := Min(Min(copy, length), left);
        CopyWindow(out, put, from, copy, offset);
      } else {
        copy := Min(length, left);
        CopyOutput(out, put, copy, offset);
      }
    }

    static lemma HaveIsMin(w: seq<byte>, wsize: nat, wnext: nat, whave: nat, h: seq<byte>)
      requires Holds(w, wsize, wnext, whave, h)
      ensures whave == Min(wsize, |h|) && (wsize > 0 ==> wnext < wsize)
    {
    }

    /** Up to the window size, a distance is refused exactly when it reaches before the first byte ever output. */
    lemma RefusedIffBeforeStart(put: nat, offset: nat)
      requires Valid() && offset <= window.Length
      ensures offset > put + Min(wsize, |history|) <==> offset > |history| + put
    {
    }

    // ---- inflate_fast ----

    /** Some bytes from the window, the rest from the output just written. */
    method WindowThenOutput(out: array<byte>, put: nat, from: nat, op: nat, len: nat, dist: nat)
      requires Valid() && put + len <= out.Length && out != window && op == dist - put <= whave && 0 < op
      requires from == Back(wsize, wnext, op) && (op > wnext ==> wnext == 0)
      modifies out
      ensures out[..put] == old(out[..put]) && dist <= |old(Full(out, put))|
      ensures Full(out, put + len) == Naive(old(Full(out, put)), dist, len)
    {
      hide Naive, Holds;
      if op < len {
        CopyWindow(out, put, from, op, dist);
        ghost var o := out[..put + op];
        CopyOutput(out, put + op, len - op, dist);
        NaiveAdd(old(Full(out, put)), dist, op, len - op);
        SamePrefix(o, out[..put + op], put);
      } else {
        CopyWindow(out, put, from, len, dist);
      }
    }

    static lemma SamePrefix(a: seq<byte>, b: seq<byte>, n: nat)
      requires a == b && n <= |a|
      ensures a[..n] == b[..n]
    {
    }

    /** The part of the window before wnext, then the output. */
    method FrontThenOutput(out: array<byte>, put: nat, len: nat, dist: nat)
      requires Valid() && put + len <= out.Length && out != window && dist - put == wnext && 0 < wnext <= whave
      modifies out
      ensures out[..put] == old(out[..put]) && dist <= |old(Full(out, put))|
      ensures Full(out, put + len) == Naive(old(Full(out, put)), dist, len)
    {
      hide Naive, Holds;
      if wnext < len {
        CopyWindow(out, put, 0, wnext, dist);
        ghost var o := out[..put + wnext];
        CopyOutput(out, put + wnext, len - wnext, dist);
        NaiveAdd(old(Full(out, put)), dist, wnext, len - wnext);
        SamePrefix(o, out[..put + wnext], put);
      } else {
        CopyWindow(out, put, 0, len, dist);
      }
    }

    /** The end of the window, its start, then the output. */
    method WrapAround(out: array<byte>, put: nat, len: nat, dist: nat)
      requires Valid() && put + len <= out.Length && out != window && 0 < wnext < dist - put <= whave
      modifies out
      ensures out[..put] == old(out[..put]) && dist <= |old(Full(out, put))|
      ensures Full(out, put + len) == Naive(old(Full(out, put)), dist, len)
    {
      hide Naive, Holds;
      HaveIsMin(window[..], wsize, wnext, whave, history);
      var op := dist - put;
      var from := wsize + wnext - op;
      op := op - wnext;
      if op < len {
        CopyWindow(out, put, from, op, dist);
        ghost var o := out[..put + op];
        FrontThenOutput(out, put + op, len - op, dist);
        NaiveAdd(old(Full(out, put)), dist, op, len - op);
        SamePrefix(o, out[..put + op], put);
      } else {
        CopyWindow(out, put, from, len, dist);
      }
    }

    /** A length/distance pair in inflate_fast: the whole match at once. */
    method FastMatch(out: array<byte>, put: nat, dist: nat, len: nat) returns (bad: bool)
      requires Valid() && put + len <= out.Length && dist > 0 && out != window
      modifies out
      ensures bad <==> dist > put + Min(wsize, |history|)
      ensures bad ==> out[..] == old(out[..])
      ensures !bad ==> out[..put] == old(out[..put]) && dist <= |old(Full(out, put))|
                       && Full(out, put + len) == Naive(old(Full(out, put)), dist, len)
    {
      hide Naive;
      bad := false;
      HaveIsMin(window[..], wsize, wnext, whave, history);
      if dist > put {
        var op := dist - put;
        if op > whave {
          bad := true;
          return;
        }
        if wnext == 0 {
          WindowThenOutput(out, put, wsize - op, op, len, dist);
        } else if wnext < op {
          WrapAround(out, put, len, dist);
        } else {
          WindowThenOutput(out, put, wnext - op, op, len, dist);
        }
      } else {
        CopyOutput(out, put, len, dist);
      }
    }
  }
}
