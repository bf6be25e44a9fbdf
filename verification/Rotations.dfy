/** Cyclic strings over a block and their lexicographic order. */
module Rotations {
  import opened Base

  // ---- the cyclic index arithmetic of blocksort.c ----

  function Next(n: nat, i: nat): (j: nat)
    requires i < n
    ensures j < n
  {
    if i + 1 == n then 0 else i + 1
  }

  /** Move `h` places forward around a block of `n` characters. */
  function Advance(n: nat, i: nat, h: nat): (j: nat)
    requires i < n
    ensures j < n
    decreases h
  {
    if h == 0 then i else Advance(n, Next(n, i), h - 1)
  }

  lemma {:induction false} AdvanceClosed(n: nat, i: nat, h: nat)
    requires i < n && h <= n
    ensures Advance(n, i, h) == if i + h < n then i + h else i + h - n
    decreases h
  {
    if h > 0 {
      AdvanceClosed(n, Next(n, i), h - 1);
    }
  }

  lemma {:induction false} AdvanceAdd(n: nat, i: nat, g: nat, h: nat)
    requires i < n
    ensures Advance(n, i, g + h) == Advance(n, Advance(n, i, g), h)
    decreases g
  {
    if g > 0 {
      AdvanceAdd(n, Next(n, i), g - 1, h);
    }
  }

  /** The first `h` characters of the rotation of `b` that starts at `i`. */
  function Prefix(b: seq<byte>, i: nat, h: nat): (s: seq<byte>)
    requires i < |b|
    ensures |s| == h
    decreases h
  {
    if h == 0 then [] else [b[i]] + Prefix(b, Next(|b|, i), h - 1)
  }

  lemma {:induction false} PrefixAdd(b: seq<byte>, i: nat, g: nat, h: nat)
    requires i < |b|
    ensures Prefix(b, i, g + h) == Prefix(b, i, g) + Prefix(b, Advance(|b|, i, g), h)
    decreases g
  {
    if g > 0 {
      PrefixAdd(b, Next(|b|, i), g - 1, h);
    } else {
      assert Prefix(b, i, 0) + Prefix(b, i, h) == Prefix(b, i, h);
    }
  }

  // ---- lexicographic order ----

  ghost predicate Lex(s: seq<int>, t: seq<int>) {
    s == [] ||
    (t != [] && (s[0] < t[0] || (s[0] == t[0] && Lex(s[1..], t[1..]))))
  }

  lemma {:induction false} LexReflexive(s: seq<int>)
    ensures Lex(s, s)
  {
    if s != [] {
      LexReflexive(s[1..]);
    }
  }

  lemma {:induction false} LexAntisymmetric(s: seq<int>, t: seq<int>)
    requires Lex(s, t) && Lex(t, s)
    ensures s == t
  {
    if s != [] && t != [] {
      LexAntisymmetric(s[1..], t[1..]);
      assert s == [s[0]] + s[1..] && t == [t[0]] + t[1..];
    }
  }

  /** Order of concatenations is decided by the heads unless these are equal. */
  lemma {:induction false} LexConcat(s: seq<int>, t: seq<int>, x: seq<int>, y: seq<int>)
    requires |s| == |t|
    ensures Lex(s + x, t + y) <==> if s == t then Lex(x, y) else Lex(s, t)
  {
    if s == [] {
      assert s + x == x && t + y == y;
    } else {
      LexConcat(s[1..], t[1..], x, y);
      assert (s + x)[1..] == s[1..] + x && (t + y)[1..] == t[1..] + y;
      assert s == [s[0]] + s[1..] && t == [t[0]] + t[1..];
    }
  }

  lemma LexExtends(s: seq<int>, t: seq<int>, x: seq<int>, y: seq<int>)
    requires |s| == |t| && Lex(s, t) && s != t
    ensures Lex(s + x, t + y) && s + x != t + y
  {
    LexConcat(s, t, x, y);
    assert (s + x)[..|s|] == s && (t + y)[..|s|] == t;
  }

  // ---- what the block sort promises ----

  ghost predicate ValidOrder(b: seq<byte>, p: seq<int>) {
    |p| == |b| && IsPermutation(p)
  }

  /** `p` lists the rotations of `b` in nondecreasing order of their first `h` characters. */
  ghost predicate SortedTo(b: seq<byte>, p: seq<int>, h: nat)
    requires ValidOrder(b, p)
  {
    forall i, j :: 0 <= i < j < |p| ==> Lex(Prefix(b, p[i], h), Prefix(b, p[j], h))
  }

  /** The promise of BZ2_blockSort: whole rotations in nondecreasing order (ties allowed). */
  ghost predicate SortsRotations(b: seq<byte>, p: seq<int>) {
    ValidOrder(b, p) && SortedTo(b, p, |b|)
  }

  /** A strict decision on a short prefix stands on every longer one. */
  lemma OrderExtends(b: seq<byte>, i: nat, j: nat, g: nat, d: nat)
    requires i < |b| && j < |b|
    requires Lex(Prefix(b, i, g), Prefix(b, j, g)) && Prefix(b, i, g) != Prefix(b, j, g)
    ensures Lex(Prefix(b, i, g + d), Prefix(b, j, g + d)) && Prefix(b, i, g + d) != Prefix(b, j, g + d)
  {
    PrefixAdd(b, i, g, d);
    PrefixAdd(b, j, g, d);
    var s, t := Prefix(b, i, g), Prefix(b, j, g);
    var x, y := Prefix(b, Advance(|b|, i, g), d), Prefix(b, Advance(|b|, j, g), d);
    LexExtends(s, t, x, y);
    assert Prefix(b, i, g + d) == s + x && Prefix(b, j, g + d) == t + y;
  }

  /** Order on a long prefix implies order on a shorter one. */
  lemma OrderAtShorter(b: seq<byte>, i: nat, j: nat, g: nat, d: nat)
    requires i < |b| && j < |b| && Lex(Prefix(b, i, g + d), Prefix(b, j, g + d))
    ensures Lex(Prefix(b, i, g), Prefix(b, j, g))
  {
    var s, t := Prefix(b, i, g), Prefix(b, j, g);
    var u, v := Prefix(b, Advance(|b|, i, g), d), Prefix(b, Advance(|b|, j, g), d);
    PrefixAdd(b, i, g, d);
    PrefixAdd(b, j, g, d);
    LexConcat(s, t, u, v);
    LexReflexive(s);
    assert Prefix(b, i, g + d) == s + u && Prefix(b, j, g + d) == t + v;
  }
}
