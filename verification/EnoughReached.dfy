/** Codes whose tables take just the room zlib provides, so that inflate_table gives up on them. */
module EnoughReached {
  import opened Base
  import opened Radix
  import opened CanonicalCode
  import opened LsbCode
  import opened InflateTable
  import opened TableSize
  import opened InflateBuild
  import opened InflateTrees
  import opened Enough
  import DeflateBits

  /** Stretches of equal lengths: how many of each, from `n` bits up. */
  function Stretches(counts: seq<nat>, n: nat): (lens: seq<byte>)
    requires n + |counts| <= 16
    decreases |counts|
  {
    if counts == [] then [] else Repeat<byte>(n, counts[0]) + Stretches(counts[1..], n + 1)
  }

  lemma {:induction false} RepeatCount(c: byte, n: nat, x: byte)
    ensures multiset(Repeat<byte>(c, n))[x] == if x == c then n else 0
  {
    if n > 0 {
      RepeatCount(c, n - 1, x);
      assert Repeat<byte>(c, n) == Repeat<byte>(c, n - 1) + [c];
    } else {
      assert Repeat<byte>(c, 0) == [];
    }
  }

  lemma CountConcat(a: seq<byte>, b: seq<byte>, x: byte)
    ensures multiset(a + b)[x] == multiset(a)[x] + multiset(b)[x]
  {
  }

  lemma StretchStep(counts: seq<nat>, n: nat)
    requires n + |counts| <= 16
    ensures if counts == [] then Stretches(counts, n) == []
            else Stretches(counts, n) == Repeat<byte>(n, counts[0]) + Stretches(counts[1..], n + 1)
  {
  }

  lemma {:induction false} StretchCount(counts: seq<nat>, n: nat, x: byte)
    requires n + |counts| <= 16
    ensures multiset(Stretches(counts, n))[x] == if n <= x < n + |counts| then counts[x - n] else 0
    decreases |counts|
  {
    hide Stretches, Repeat;
    StretchStep(counts, n);
    if counts != [] {
      RepeatCount(n, counts[0], x);
      StretchCount(counts[1..], n + 1, x);
      CountConcat(Repeat<byte>(n, counts[0]), Stretches(counts[1..], n + 1), x);
    }
  }

  /** The first `n` counts together. */
  function SumTo(counts: seq<nat>, n: nat): nat
    requires n <= |counts|
  {
    if n == 0 then 0 else SumTo(counts, n - 1) + counts[n - 1]
  }

  lemma {:induction false} SumShifted(counts: seq<nat>, n: nat)
    requires n < |counts|
    ensures SumTo(counts, n + 1) == counts[0] + SumTo(counts[1..], n)
  {
    if n > 0 {
      SumShifted(counts, n - 1);
    } else {
      assert SumTo(counts, 1) == SumTo(counts, 0) + counts[0];
    }
  }

  lemma {:induction false} StretchSize(counts: seq<nat>, n: nat)
    requires n + |counts| <= 16
    ensures |Stretches(counts, n)| == SumTo(counts, |counts|)
    ensures forall s :: 0 <= s < |Stretches(counts, n)| ==> n <= Stretches(counts, n)[s] <= 15
    decreases |counts|
  {
    if counts != [] {
      StretchSize(counts[1..], n + 1);
      SumShifted(counts, |counts| - 1);
    }
  }

  /** What codes with so many of each length occupy, length by length. */
  function OccupiedBy(counts: seq<nat>, n: nat): nat
    requires n <= |counts|
  {
    if n == 0 then 0 else 2 * OccupiedBy(counts, n - 1) + counts[n - 1]
  }

  lemma {:induction false} StretchOccupies(counts: seq<nat>, n: nat)
    requires n <= |counts| == 15
    ensures Occupied(Stretches(counts, 1), n) == OccupiedBy(counts, n)
  {
    if n > 0 {
      StretchOccupies(counts, n - 1);
      StretchCount(counts, 1, n);
    }
  }

  lemma {:induction false} StretchBelow(counts: seq<nat>, n: nat)
    requires n <= |counts| == 15
    ensures Below(Stretches(counts, 1), n + 1) == SumTo(counts, n)
  {
    hide Stretches, Below;
    var lens := Stretches(counts, 1);
    StretchCount(counts, 1, n);
    BelowStep(lens, n);
    if n > 0 {
      StretchBelow(counts, n - 1);
    } else {
      NoneBelow(lens);
    }
  }

  lemma NoneBelow(lens: seq<byte>)
    ensures Below(lens, 0) == 0
  {
  }

  /** Every length of the sub-tables leaves as much open as it can. */
  ghost predicate AlwaysOpen(j: Job, c: nat) {
    forall i :: 0 <= i < c ==> Open(j, i) == Pow2(i) - 1
  }

  lemma {:induction false} OpenSumMost(j: Job, c: nat)
    requires AlwaysOpen(j, c)
    ensures OpenSum(j, c) == Pow2(c) - 1 - c
  {
    if c > 0 {
      OpenSumMost(j, c - 1);
    }
  }

  lemma OneShort(j: Job, c: nat, f: nat)
    requires Occupied(j.lens, j.root + c) + 1 == (f + 1) * Pow2(c)
    ensures Open(j, c) == Pow2(c) - 1
  {
    hide Occupied, Pow2, Shr;
    var v := Occupied(j.lens, j.root + c);
    PowPositive(c);
    OneMoreTime(f, Pow2(c));
    ShrBetween(v, f, c);
  }

  /** A complete code that always leaves all but one string open takes the most room there is. */
  lemma MostRoom(j: Job)
    requires CompleteJob(j) && AlwaysOpen(j, j.top - j.root)
    ensures var c := j.top - j.root; Total(j) == Pow2(j.root) + LongCodes(j, c) + Pow2(c) - 1 - c
  {
    hide Kraft, Pow2, FullPrefixes, Open, Below, SubTotal;
    AllFilled(j);
    RoomIdentity(j, j.top - j.root);
    OpenSumMost(j, j.top - j.root);
  }

  /** How many symbols have 1, 2, .. 15 bits: 286 literals and lengths. */
  const LENS_COUNTS: seq<nat> := [1, 1, 1, 0, 0, 0, 0, 0, 0, 77, 1, 201, 1, 1, 2]

  /** The same for 30 distances. */
  const DISTS_COUNTS: seq<nat> := [1, 1, 1, 1, 0, 0, 1, 9, 9, 1, 1, 1, 1, 1, 2]

  /** One length after the other. */
  lemma CountNext(counts: seq<nat>, n: nat, occupied: nat, sum: nat)
    requires n < |counts| && OccupiedBy(counts, n) == occupied && SumTo(counts, n) == sum
    ensures OccupiedBy(counts, n + 1) == 2 * occupied + counts[n] && SumTo(counts, n + 1) == sum + counts[n]
  {
  }

  lemma CountNone(counts: seq<nat>)
    ensures OccupiedBy(counts, 0) == 0 && SumTo(counts, 0) == 0
  {
  }

  lemma LensNumbersRoot()
    ensures OccupiedBy(LENS_COUNTS, 9) == 448 && SumTo(LENS_COUNTS, 9) == 3
  {
    hide OccupiedBy, SumTo;
    CountNone(LENS_COUNTS);
    CountNext(LENS_COUNTS, 0, 0, 0);
    CountNext(LENS_COUNTS, 1, 1, 1);
    CountNext(LENS_COUNTS, 2, 3, 2);
    CountNext(LENS_COUNTS, 3, 7, 3);
    CountNext(LENS_COUNTS, 4, 14, 3);
    CountNext(LENS_COUNTS, 5, 28, 3);
    CountNext(LENS_COUNTS, 6, 56, 3);
    CountNext(LENS_COUNTS, 7, 112, 3);
    CountNext(LENS_COUNTS, 8, 224, 3);
  }

  lemma LensNumbersMiddle()
    ensures SumTo(LENS_COUNTS, 12) == 282
    ensures OccupiedBy(LENS_COUNTS, 10) == 973
    ensures OccupiedBy(LENS_COUNTS, 11) == 1947
    ensures OccupiedBy(LENS_COUNTS, 12) == 4095
  {
    hide OccupiedBy, SumTo;
    LensNumbersRoot();
    CountNext(LENS_COUNTS, 9, 448, 3);
    CountNext(LENS_COUNTS, 10, 973, 80);
    CountNext(LENS_COUNTS, 11, 1947, 81);
  }

  lemma LensNumbers()
    ensures SumTo(LENS_COUNTS, 15) == 286
    ensures OccupiedBy(LENS_COUNTS, 9) == 448
    ensures OccupiedBy(LENS_COUNTS, 10) == 973
    ensures OccupiedBy(LENS_COUNTS, 11) == 1947
    ensures OccupiedBy(LENS_COUNTS, 12) == 4095
    ensures OccupiedBy(LENS_COUNTS, 13) == 8191
    ensures OccupiedBy(LENS_COUNTS, 14) == 16383
    ensures OccupiedBy(LENS_COUNTS, 15) == 32768
    ensures SumTo(LENS_COUNTS, 9) == 3
  {
    hide OccupiedBy, SumTo;
    LensNumbersMiddle();
    LensNumbersRoot();
    CountNext(LENS_COUNTS, 12, 4095, 282);
    CountNext(LENS_COUNTS, 13, 8191, 283);
    CountNext(LENS_COUNTS, 14, 16383, 284);
  }

  lemma DistsNumbersRoot()
    ensures OccupiedBy(DISTS_COUNTS, 6) == 60 && SumTo(DISTS_COUNTS, 6) == 4
  {
    hide OccupiedBy, SumTo;
    CountNone(DISTS_COUNTS);
    CountNext(DISTS_COUNTS, 0, 0, 0);
    CountNext(DISTS_COUNTS, 1, 1, 1);
    CountNext(DISTS_COUNTS, 2, 3, 2);
    CountNext(DISTS_COUNTS, 3, 7, 3);
    CountNext(DISTS_COUNTS, 4, 15, 4);
    CountNext(DISTS_COUNTS, 5, 30, 4);
  }

  lemma DistsNumbersMiddle()
    ensures SumTo(DISTS_COUNTS, 12) == 26
    ensures OccupiedBy(DISTS_COUNTS, 7) == 121
    ensures OccupiedBy(DISTS_COUNTS, 8) == 251
    ensures OccupiedBy(DISTS_COUNTS, 9) == 511
    ensures OccupiedBy(DISTS_COUNTS, 10) == 1023
    ensures OccupiedBy(DISTS_COUNTS, 11) == 2047
    ensures OccupiedBy(DISTS_COUNTS, 12) == 4095
  {
    hide OccupiedBy, SumTo;
    DistsNumbersRoot();
    CountNext(DISTS_COUNTS, 6, 60, 4);
    CountNext(DISTS_COUNTS, 7, 121, 5);
    CountNext(DISTS_COUNTS, 8, 251, 14);
    CountNext(DISTS_COUNTS, 9, 511, 23);
    CountNext(DISTS_COUNTS, 10, 1023, 24);
    CountNext(DISTS_COUNTS, 11, 2047, 25);
  }

  lemma DistsNumbers()
    ensures SumTo(DISTS_COUNTS, 15) == 30
    ensures OccupiedBy(DISTS_COUNTS, 6) == 60
    ensures OccupiedBy(DISTS_COUNTS, 7) == 121
    ensures OccupiedBy(DISTS_COUNTS, 8) == 251
    ensures OccupiedBy(DISTS_COUNTS, 9) == 511
    ensures OccupiedBy(DISTS_COUNTS, 10) == 1023
    ensures OccupiedBy(DISTS_COUNTS, 11) == 2047
    ensures OccupiedBy(DISTS_COUNTS, 12) == 4095
    ensures OccupiedBy(DISTS_COUNTS, 13) == 8191
    ensures OccupiedBy(DISTS_COUNTS, 14) == 16383
    ensures OccupiedBy(DISTS_COUNTS, 15) == 32768
    ensures SumTo(DISTS_COUNTS, 6) == 4
  {
    hide OccupiedBy, SumTo;
    DistsNumbersMiddle();
    DistsNumbersRoot();
    CountNext(DISTS_COUNTS, 12, 4095, 26);
    CountNext(DISTS_COUNTS, 13, 8191, 27);
    CountNext(DISTS_COUNTS, 14, 16383, 28);
  }

  // ---- the two codes ----

  /** `n` symbols in canonical order of length. */
  ghost predicate Listing(counts: seq<nat>, n: nat) {
    |counts| == 15 && SumTo(counts, 15) == n && OccupiedBy(counts, 15) == 32768 && counts[0] > 0 && counts[14] > 0
  }

  lemma ListingIsCode(counts: seq<nat>, ty: CodeType, n: nat, root: nat)
    requires Listing(counts, n) && 1 <= root <= 15 && n <= MaxSymbols(ty)
    ensures var lens := Stretches(counts, 1);
      && |lens| == n && (forall s :: 0 <= s < n ==> 1 <= lens[s] <= 15) && !NoCodes(lens) && !Refused(ty, lens)
      && JobOf(ty, lens, root) == Job(lens, ty, root, 15) && CompleteJob(JobOf(ty, lens, root))
  {
    hide Stretches, Kraft, Occupied, OccupiedBy, LongestOf, ShortestOf, Pow2, SumTo;
    var lens := Stretches(counts, 1);
    StretchSize(counts, 1);
    StretchCount(counts, 1, 1);
    StretchCount(counts, 1, 15);
    ExtremesAre(lens, 1, 15);
    StretchOccupies(counts, 15);
    OccupiedIsKraft(lens, 15);
    PowFifteen();
    assert 1 in multiset(lens);
    var s :| 0 <= s < |lens| && lens[s] == 1;
  }

  lemma PowFifteen()
    ensures Pow2(15) == 32768
  {
    Pow2Add(8, 7);
    assert Pow2(7) == 128 && Pow2(8) == 256;
  }

  /** What is open at root + c bits, from the counts. */
  lemma OpenBy(counts: seq<nat>, j: Job, c: nat, f: nat)
    requires |counts| == 15 && j.lens == Stretches(counts, 1) && j.root + c <= 15
    requires OccupiedBy(counts, j.root + c) + 1 == (f + 1) * Pow2(c)
    ensures Open(j, c) == Pow2(c) - 1
  {
    hide Occupied, Pow2, OccupiedBy, Open;
    StretchOccupies(counts, j.root + c);
    OneShort(j, c, f);
  }

  /** 286 literal/length codes whose table takes 852 slots: a code, and given up on. */
  lemma LensFull() returns (lens: seq<byte>)
    ensures AsInflate(Lens, lens, 9) && |lens| == 286 && !NoCodes(lens) && !Refused(Lens, lens)
    ensures Total(JobOf(Lens, lens, 9)) == 852 && TooMuch(Lens, Total(JobOf(Lens, lens, 9)))
  {
    hide Stretches, Kraft, Occupied, OccupiedBy, SumTo, Pow2, Open, Total, Below, JobOf;
    LensNumbers();
    lens := Stretches(LENS_COUNTS, 1);
    ListingIsCode(LENS_COUNTS, Lens, 286, 9);
    var j := JobOf(Lens, lens, 9);
    DeflateBits.SmallPowers();
    NothingOpen(j);
    OpenBy(LENS_COUNTS, j, 1, 486);
    OpenBy(LENS_COUNTS, j, 2, 486);
    OpenBy(LENS_COUNTS, j, 3, 511);
    OpenBy(LENS_COUNTS, j, 4, 511);
    OpenBy(LENS_COUNTS, j, 5, 511);
    assert AlwaysOpen(j, 6) by {
      forall i | 0 <= i < 6
        ensures Open(j, i) == Pow2(i) - 1
      {
        assert i == 0 || i == 1 || i == 2 || i == 3 || i == 4 || i == 5;
      }
    }
    StretchBelow(LENS_COUNTS, 15);
    StretchBelow(LENS_COUNTS, 9);
    MostRoom(j);
  }

  /** 30 distance codes whose table takes 592 slots. */
  lemma DistsFull() returns (lens: seq<byte>)
    ensures AsInflate(Dists, lens, 6) && |lens| == 30 && !NoCodes(lens) && !Refused(Dists, lens)
    ensures Total(JobOf(Dists, lens, 6)) == 592 && TooMuch(Dists, Total(JobOf(Dists, lens, 6)))
  {
    hide Stretches, Kraft, Occupied, OccupiedBy, SumTo, Pow2, Open, Total, Below, JobOf;
    DistsNumbers();
    lens := Stretches(DISTS_COUNTS, 1);
    ListingIsCode(DISTS_COUNTS, Dists, 30, 6);
    var j := JobOf(Dists, lens, 6);
    DeflateBits.SmallPowers();
    NothingOpen(j);
    OpenBy(DISTS_COUNTS, j, 1, 60);
    OpenBy(DISTS_COUNTS, j, 2, 62);
    OpenBy(DISTS_COUNTS, j, 3, 63);
    OpenBy(DISTS_COUNTS, j, 4, 63);
    OpenBy(DISTS_COUNTS, j, 5, 63);
    OpenBy(DISTS_COUNTS, j, 6, 63);
    OpenBy(DISTS_COUNTS, j, 7, 63);
    OpenBy(DISTS_COUNTS, j, 8, 63);
    assert AlwaysOpen(j, 9) by {
      forall i | 0 <= i < 9
        ensures Open(j, i) == Pow2(i) - 1
      {
        assert i == 0 || i == 1 || i == 2 || i == 3 || i == 4 || i == 5 || i == 6 || i == 7 || i == 8;
      }
    }
    StretchBelow(DISTS_COUNTS, 15);
    StretchBelow(DISTS_COUNTS, 6);
    MostRoom(j);
  }
}
