/** The two-pointer sweep that measures how long two kernel streams run at once. */
module IntervalOverlap {
  import opened Numbers
  import opened Sets

  /** A kernel's half-open run [start, end) in nanoseconds. */
  datatype Interval = Interval(start: int, end: int)

  /** Sorted, and no interval begins before its predecessor has ended. */
  ghost predicate Disjoint(s: seq<Interval>) {
    && (forall i | 0 <= i < |s| :: s[i].start <= s[i].end)
    && (forall i, j | 0 <= i < j < |s| :: s[i].end <= s[j].start)
  }

  function Shared(a: Interval, b: Interval): nat {
    Max(0, Min(a.end, b.end) - Max(a.start, b.start))
  }

  function SharedWithAll(a: Interval, s: seq<Interval>): nat {
    if s == [] then 0 else Shared(a, s[0]) + SharedWithAll(a, s[1..])
  }

  /** The sum of all pairwise intersection lengths. */
  function Pairwise(s: seq<Interval>, t: seq<Interval>): nat {
    if s == [] then 0 else SharedWithAll(s[0], t) + Pairwise(s[1..], t)
  }

  function Duration(s: seq<Interval>): int {
    if s == [] then 0 else s[0].end - s[0].start + Duration(s[1..])
  }

  // ---------------------------------------------------------- time points

  function Points(lo: int, hi: int): set<int>
    decreases hi - lo
  {
    if lo >= hi then {} else {lo} + Points(lo + 1, hi)
  }

  /** The time points at which some interval of s is running. */
  function Covered(s: seq<Interval>): set<int> {
    if s == [] then {} else Points(s[0].start, s[0].end) + Covered(s[1..])
  }

  lemma {:induction false} PointsFacts(lo: int, hi: int)
    ensures forall t :: t in Points(lo, hi) <==> lo <= t < hi
    ensures |Points(lo, hi)| == Max(0, hi - lo)
    decreases hi - lo
  {
    if lo < hi {
      PointsFacts(lo + 1, hi);
    }
  }

  lemma {:induction false} CoveredMember(s: seq<Interval>, t: int)
    ensures t in Covered(s) <==> exists i :: 0 <= i < |s| && s[i].start <= t < s[i].end
  {
    if s != [] {
      PointsFacts(s[0].start, s[0].end);
      CoveredMember(s[1..], t);
      if exists i :: 0 <= i < |s| && s[i].start <= t < s[i].end {
        var i :| 0 <= i < |s| && s[i].start <= t < s[i].end;
        if i > 0 {
          assert s[1..][i - 1] == s[i];
        }
      }
    }
  }

  /** The part of s's coverage that follows the first interval starts after it. */
  lemma CoveredTail(s: seq<Interval>, lo: int)
    requires Disjoint(s)
    requires forall i | 0 <= i < |s| :: lo <= s[i].start
    ensures forall t | t in Covered(s) :: lo <= t
  {
    forall t | t in Covered(s)
      ensures lo <= t
    {
      CoveredMember(s, t);
    }
  }

  lemma {:induction false} CoveredSize(s: seq<Interval>)
    requires Disjoint(s)
    ensures |Covered(s)| == Duration(s)
  {
    if s != [] {
      PointsFacts(s[0].start, s[0].end);
      CoveredTail(s[1..], s[0].end);
      CoveredSize(s[1..]);
      DisjointIntSets(Points(s[0].start, s[0].end), Covered(s[1..]));
    }
  }

  lemma PointsMeet(a: Interval, b: Interval)
    ensures |Points(a.start, a.end) * Points(b.start, b.end)| == Shared(a, b)
  {
    var lo, hi := Max(a.start, b.start), Min(a.end, b.end);
    PointsFacts(a.start, a.end);
    PointsFacts(b.start, b.end);
    PointsFacts(lo, hi);
    SameIntSet(Points(a.start, a.end) * Points(b.start, b.end), Points(lo, hi));
  }

  /** The first interval's share and the share of the rest add up. */
  lemma CoverSplits(s: seq<Interval>, c: set<int>)
    requires Disjoint(s) && s != []
    ensures |Covered(s) * c| == |Points(s[0].start, s[0].end) * c| + |Covered(s[1..]) * c|
  {
    PointsFacts(s[0].start, s[0].end);
    CoveredTail(s[1..], s[0].end);
    SplitIntersection(Points(s[0].start, s[0].end), Covered(s[1..]), c);
  }

  lemma {:induction false} SharedWithAllSize(a: Interval, t: seq<Interval>)
    requires Disjoint(t)
    ensures |Covered(t) * Points(a.start, a.end)| == SharedWithAll(a, t)
  {
    if t == [] {
      assert Covered(t) * Points(a.start, a.end) == {};
    } else {
      CoverSplits(t, Points(a.start, a.end));
      PointsMeet(t[0], a);
      SharedWithAllSize(a, t[1..]);
    }
  }

  /** The measure of the time points covered by both lists. */
  function SharedTime(s: seq<Interval>, t: seq<Interval>): nat {
    |Covered(s) * Covered(t)|
  }

  /** Any set that holds exactly the times at which both lists run something has that size. */
  lemma SharedTimeMeans(s: seq<Interval>, t: seq<Interval>, both: set<int>)
    requires forall x: int :: x in both <==>
      && (exists i :: 0 <= i < |s| && s[i].start <= x < s[i].end)
      && (exists j :: 0 <= j < |t| && t[j].start <= x < t[j].end)
    ensures SharedTime(s, t) == |both|
  {
    forall x: int
      ensures x in Covered(s) * Covered(t) <==> x in both
    {
      CoveredMember(s, x);
      CoveredMember(t, x);
    }
    SameIntSet(Covered(s) * Covered(t), both);
  }

  /** The pairwise sum counts exactly the time points covered by both lists. */
  lemma {:induction false} PairwiseCountsSharedPoints(s: seq<Interval>, t: seq<Interval>)
    requires Disjoint(s) && Disjoint(t)
    ensures SharedTime(s, t) == Pairwise(s, t)
  {
    if s == [] {
      assert Covered(s) * Covered(t) == {};
    } else {
      CoverSplits(s, Covered(t));
      SharedWithAllSize(s[0], t);
      PairwiseCountsSharedPoints(s[1..], t);
      assert Points(s[0].start, s[0].end) * Covered(t) == Covered(t) * Points(s[0].start, s[0].end);
    }
  }

  /** The denominator "total duration minus overlap" is the measure of the union. */
  lemma UnionMeasure(s: seq<Interval>, t: seq<Interval>)
    requires Disjoint(s) && Disjoint(t)
    ensures |Covered(s) + Covered(t)| == Duration(s) + Duration(t) - Pairwise(s, t)
    ensures Pairwise(s, t) == Pairwise(t, s)
  {
    CoveredSize(s);
    CoveredSize(t);
    PairwiseCountsSharedPoints(s, t);
    PairwiseCountsSharedPoints(t, s);
    UnionSize(Covered(s), Covered(t));
  }

  // -------------------------------------------------------------- the sweep

  /** The sweep: of the two front intervals the one that ends first is dropped. */
  function Sweep(s: seq<Interval>, t: seq<Interval>): nat
    decreases |s| + |t|
  {
    if s == [] || t == [] then 0
    else Shared(s[0], t[0]) + if s[0].end <= t[0].end then Sweep(s[1..], t) else Sweep(s, t[1..])
  }

  /** Pairwise sums by rows or by columns. */
  lemma {:induction false} PairwiseColumn(s: seq<Interval>, t: seq<Interval>)
    requires t != []
    ensures Pairwise(s, t) == SharedWithAll(t[0], s) + Pairwise(s, t[1..])
  {
    if s != [] {
      PairwiseColumn(s[1..], t);
    }
  }

  lemma {:induction false} PairwiseEmpty(s: seq<Interval>)
    ensures Pairwise(s, []) == 0
  {
    if s != [] {
      PairwiseEmpty(s[1..]);
    }
  }

  /** For any two lists the sweep visits every pair at most once. */
  lemma {:induction false} SweepAtMostPairwise(s: seq<Interval>, t: seq<Interval>)
    ensures Sweep(s, t) <= Pairwise(s, t)
    decreases |s| + |t|
  {
    if s != [] && t != [] {
      if s[0].end <= t[0].end {
        SweepAtMostPairwise(s[1..], t);
      } else {
        SweepAtMostPairwise(s, t[1..]);
        PairwiseColumn(s, t);
      }
    }
  }

  /** An interval that ends by x shares nothing with intervals starting from x on. */
  lemma {:induction false} NothingAfter(a: Interval, t: seq<Interval>)
    requires forall j | 0 <= j < |t| :: a.end <= t[j].start
    ensures SharedWithAll(a, t) == 0
  {
    if t != [] {
      NothingAfter(a, t[1..]);
    }
  }

  lemma {:induction false} SweepIsPairwise(s: seq<Interval>, t: seq<Interval>)
    requires Disjoint(s) && Disjoint(t)
    ensures Sweep(s, t) == Pairwise(s, t)
    decreases |s| + |t|
  {
    if s == [] {
    } else if t == [] {
      PairwiseEmpty(s);
    } else if s[0].end <= t[0].end {
      SweepIsPairwise(s[1..], t);
      NothingAfter(s[0], t[1..]);
    } else {
      SweepIsPairwise(s, t[1..]);
      PairwiseColumn(s, t);
      NothingAfter(t[0], s[1..]);
    }
  }

  /** On internally disjoint lists no skipped pair shares anything: the sweep is exact, and it
      counts the time points covered by both lists. */
  lemma SweepIsSharedTime(s: seq<Interval>, t: seq<Interval>)
    requires Disjoint(s) && Disjoint(t)
    ensures Sweep(s, t) == Pairwise(s, t) == SharedTime(s, t)
  {
    SweepIsPairwise(s, t);
    PairwiseCountsSharedPoints(s, t);
  }

  ghost predicate SortedByStart(s: seq<Interval>) {
    forall i, j | 0 <= i < j < |s| :: s[i].start <= s[j].start
  }

  /** What the front interval a shares with a start-sorted list, it shares with the front of the
      list, if that ends no earlier than a. */
  lemma FrontDecides(a: Interval, t: seq<Interval>)
    requires t != [] && SortedByStart(t) && a.end <= t[0].end
    ensures Points(a.start, a.end) * Covered(t) <= Points(a.start, a.end) * Points(t[0].start, t[0].end)
  {
    PointsFacts(a.start, a.end);
    PointsFacts(t[0].start, t[0].end);
    forall x: int | x in Points(a.start, a.end) * Covered(t)
      ensures x in Points(a.start, a.end) * Points(t[0].start, t[0].end)
    {
      CoveredMember(t, x);
    }
    IntSubset(Points(a.start, a.end) * Covered(t), Points(a.start, a.end) * Points(t[0].start, t[0].end));
  }

  lemma DropCounts(s: seq<Interval>, t: seq<Interval>)
    requires s != [] && t != [] && SortedByStart(t) && s[0].end <= t[0].end
    ensures SharedTime(s, t) <= Shared(s[0], t[0]) + SharedTime(s[1..], t)
  {
    var p := Points(s[0].start, s[0].end);
    FrontDecides(s[0], t);
    SubsetSize(p * Covered(t), p * Points(t[0].start, t[0].end));
    PointsMeet(s[0], t[0]);
    UnionMeetsAtMost(p, Covered(s[1..]), Covered(t));
  }

  /** Even when intervals of one list overlap each other, as the slices of a factor may, the sweep
      over lists sorted by start misses no shared time and counts no pair twice. */
  lemma {:induction false} SweepBrackets(s: seq<Interval>, t: seq<Interval>)
    requires SortedByStart(s) && SortedByStart(t)
    ensures SharedTime(s, t) <= Sweep(s, t) <= Pairwise(s, t)
    decreases |s| + |t|
  {
    SweepAtMostPairwise(s, t);
    if s == [] || t == [] {
      assert Covered(s) * Covered(t) == {};
    } else if s[0].end <= t[0].end {
      DropCounts(s, t);
      SweepBrackets(s[1..], t);
    } else {
      DropCounts(t, s);
      SweepBrackets(s, t[1..]);
      SharedTimeSymmetric(s, t);
      SharedTimeSymmetric(s, t[1..]);
    }
  }

  lemma SharedTimeSymmetric(s: seq<Interval>, t: seq<Interval>)
    ensures SharedTime(s, t) == SharedTime(t, s)
  {
    UnionSize(Covered(s), Covered(t));
  }

  lemma {:induction false} NoSharedTimeWithAll(a: Interval, t: seq<Interval>)
    requires |Points(a.start, a.end) * Covered(t)| == 0
    ensures SharedWithAll(a, t) == 0
  {
    if t != [] {
      PointsMeet(a, t[0]);
      EmptyMeetsSplit(Points(a.start, a.end), Points(t[0].start, t[0].end), Covered(t[1..]));
      NoSharedTimeWithAll(a, t[1..]);
    }
  }

  lemma {:induction false} NoSharedTime(s: seq<Interval>, t: seq<Interval>)
    requires SharedTime(s, t) == 0
    ensures Pairwise(s, t) == 0
  {
    if s != [] {
      UnionSize(Covered(s), Covered(t));
      EmptyMeetsSplit(Covered(t), Points(s[0].start, s[0].end), Covered(s[1..]));
      UnionSize(Covered(t), Points(s[0].start, s[0].end));
      UnionSize(Covered(t), Covered(s[1..]));
      NoSharedTimeWithAll(s[0], t);
      NoSharedTime(s[1..], t);
    }
  }

  /** So on a trace it is positive exactly when kernels of both lists ran at the same time. */
  lemma SweepDetectsOverlap(s: seq<Interval>, t: seq<Interval>)
    requires SortedByStart(s) && SortedByStart(t)
    ensures Sweep(s, t) > 0 <==> SharedTime(s, t) > 0
  {
    SweepBrackets(s, t);
    if SharedTime(s, t) == 0 {
      NoSharedTime(s, t);
    }
  }

  // ------------------------------------------------- when the amount is right

  /** The three intervals have a time point in common. */
  predicate Together(a: Interval, b: Interval, c: Interval) {
    Max(Max(a.start, b.start), c.start) < Min(Min(a.end, b.end), c.end)
  }

  /** No time at which a runs with an interval of t is covered again by the rest of a's own list. */
  ghost predicate CountedOnce(a: Interval, rest: seq<Interval>, t: seq<Interval>) {
    forall i, j | 0 <= i < |rest| && 0 <= j < |t| :: !Together(a, rest[i], t[j])
  }

  /** That holds at every drop of the sweep. */
  ghost predicate ExactSweep(s: seq<Interval>, t: seq<Interval>)
    decreases |s| + |t|
  {
    s != [] && t != [] ==>
      if s[0].end <= t[0].end then CountedOnce(s[0], s[1..], t) && ExactSweep(s[1..], t)
      else CountedOnce(t[0], t[1..], s) && ExactSweep(s, t[1..])
  }

  /** The time at which a and both lists run. */
  function Again(a: Interval, rest: seq<Interval>, t: seq<Interval>): set<int> {
    (Points(a.start, a.end) * Covered(t)) * (Covered(rest) * Covered(t))
  }

  lemma AgainMember(a: Interval, rest: seq<Interval>, t: seq<Interval>, x: int)
    ensures x in Again(a, rest, t) <==>
            a.start <= x < a.end && exists i, j :: 0 <= i < |rest| && 0 <= j < |t|
                                      && rest[i].start <= x < rest[i].end && t[j].start <= x < t[j].end
  {
    PointsFacts(a.start, a.end);
    CoveredMember(rest, x);
    CoveredMember(t, x);
  }

  lemma NothingAgain(a: Interval, rest: seq<Interval>, t: seq<Interval>)
    ensures |Again(a, rest, t)| == 0 <==> CountedOnce(a, rest, t)
  {
    if !CountedOnce(a, rest, t) {
      var i, j :| 0 <= i < |rest| && 0 <= j < |t| && Together(a, rest[i], t[j]);
      var x := Max(Max(a.start, rest[i].start), t[j].start);
      AgainMember(a, rest, t, x);
    } else if Again(a, rest, t) != {} {
      var x := Pick(Again(a, rest, t));
      AgainMember(a, rest, t, x);
    }
  }

  lemma CoversFirst(t: seq<Interval>)
    requires t != []
    ensures Points(t[0].start, t[0].end) <= Covered(t)
  {
  }

  lemma FrontShares(a: Interval, t: seq<Interval>)
    requires t != [] && SortedByStart(t) && a.end <= t[0].end
    ensures |Points(a.start, a.end) * Covered(t)| == Shared(a, t[0])
  {
    var p, q := Points(a.start, a.end), Points(t[0].start, t[0].end);
    FrontDecides(a, t);
    CoversFirst(t);
    assert p * q <= p * Covered(t);
    SubsetSize(p * q, p * Covered(t));
    SubsetSize(p * Covered(t), p * q);
    PointsMeet(a, t[0]);
  }

  /** What a drop takes from the shared time is its own share, except the part shared again later. */
  lemma DropTakes(s: seq<Interval>, t: seq<Interval>)
    requires s != [] && t != [] && SortedByStart(t) && s[0].end <= t[0].end
    ensures SharedTime(s, t) + |Again(s[0], s[1..], t)| == Shared(s[0], t[0]) + SharedTime(s[1..], t)
  {
    var p, rest, c := Points(s[0].start, s[0].end), Covered(s[1..]), Covered(t);
    FrontShares(s[0], t);
    assert (p + rest) * c == p * c + rest * c;
    UnionSize(p * c, rest * c);
  }

  /** The exact condition: on lists sorted by start the reported amount is the shared time if and only if
      no drop takes an interval that shares jointly covered time with the rest of its own list. */
  lemma {:induction false} SweepExactIff(s: seq<Interval>, t: seq<Interval>)
    requires SortedByStart(s) && SortedByStart(t)
    ensures Sweep(s, t) == SharedTime(s, t) <==> ExactSweep(s, t)
    decreases |s| + |t|
  {
    if s == [] || t == [] {
      assert Covered(s) * Covered(t) == {};
    } else if s[0].end <= t[0].end {
      DropTakes(s, t);
      NothingAgain(s[0], s[1..], t);
      SweepBrackets(s[1..], t);
      SweepExactIff(s[1..], t);
    } else {
      SharedTimeSymmetric(s, t);
      SharedTimeSymmetric(s, t[1..]);
      DropTakes(t, s);
      NothingAgain(t[0], t[1..], s);
      SweepBrackets(s, t[1..]);
      SweepExactIff(s, t[1..]);
    }
  }

  /** No two intervals of s overlap at a time that t covers. */
  ghost predicate NoDoubleCover(s: seq<Interval>, t: seq<Interval>) {
    forall i, k, j | 0 <= i < k < |s| && 0 <= j < |t| :: !Together(s[i], s[k], t[j])
  }

  lemma DoubleCoverTail(s: seq<Interval>, t: seq<Interval>)
    requires s != [] && t != []
    ensures NoDoubleCover(s, t) ==> CountedOnce(s[0], s[1..], t) && NoDoubleCover(s[1..], t) && NoDoubleCover(s, t[1..])
  {
  }

  lemma {:induction false} ExactWithoutDoubleCover(s: seq<Interval>, t: seq<Interval>)
    requires NoDoubleCover(s, t) && NoDoubleCover(t, s)
    ensures ExactSweep(s, t)
    decreases |s| + |t|
  {
    if s != [] && t != [] {
      DoubleCoverTail(s, t);
      DoubleCoverTail(t, s);
      if s[0].end <= t[0].end {
        ExactWithoutDoubleCover(s[1..], t);
      } else {
        ExactWithoutDoubleCover(s, t[1..]);
      }
    }
  }

  /** What a caller can check without following the sweep: the amount is right when no two intervals of
      one list overlap at a time the other list covers. Disjoint lists are a special case. */
  lemma SweepExactWithoutDoubleCover(s: seq<Interval>, t: seq<Interval>)
    requires SortedByStart(s) && SortedByStart(t) && NoDoubleCover(s, t) && NoDoubleCover(t, s)
    ensures Sweep(s, t) == SharedTime(s, t)
  {
    ExactWithoutDoubleCover(s, t);
    SweepExactIff(s, t);
  }

  /** All of s is over by hi and none of t begins before lo. */
  lemma SharedWithin(s: seq<Interval>, t: seq<Interval>, lo: int, hi: int)
    requires lo <= hi && (forall i | 0 <= i < |s| :: s[i].end <= hi) && (forall j | 0 <= j < |t| :: lo <= t[j].start)
    ensures SharedTime(s, t) <= hi - lo
  {
    PointsFacts(lo, hi);
    forall x: int | x in Covered(s) * Covered(t)
      ensures x in Points(lo, hi)
    {
      CoveredMember(s, x);
      CoveredMember(t, x);
    }
    IntSubset(Covered(s) * Covered(t), Points(lo, hi));
    SubsetSize(Covered(s) * Covered(t), Points(lo, hi));
  }

  lemma SweepDrop(a: Interval, s: seq<Interval>, t: seq<Interval>)
    requires t != [] && a.end <= t[0].end
    ensures Sweep([a] + s, t) == Shared(a, t[0]) + Sweep(s, t)
  {
    assert ([a] + s)[1..] == s;
  }

  /** A second interval that runs within another one counts again, although the other list is a single
      interval. */
  lemma SweepCanOvercount(a: Interval, b: Interval)
    requires a.start == b.start < b.end < a.end
    ensures SortedByStart([a]) && SortedByStart([b, a])
    ensures Sweep([a], [b, a]) == SharedTime([a], [b, a]) + (b.end - b.start)
  {
    NestedCover(a, b);
    var p := Points(a.start, a.end);
    assert p * p == p;
    TwoDrops(a, b);
  }

  lemma NestedCover(a: Interval, b: Interval)
    requires a.start <= b.start && b.end <= a.end && a.start <= a.end
    ensures Covered([a]) == Points(a.start, a.end) == Covered([b, a])
    ensures |Points(a.start, a.end)| == a.end - a.start
  {
    PointsFacts(a.start, a.end);
    PointsFacts(b.start, b.end);
    IntSubset(Points(b.start, b.end), Points(a.start, a.end));
    assert [a][1..] == [] && [b, a][1..] == [a];
  }

  lemma TwoDrops(a: Interval, b: Interval)
    requires b.end < a.end
    ensures Sweep([a], [b, a]) == Shared(a, b) + Shared(a, a)
  {
    assert [b, a][1..] == [a] && [a][1..] == [];
    assert Sweep([a], [a]) == Shared(a, a) + Sweep([], [a]);
  }

  method Overlap(first: seq<Interval>, second: seq<Interval>) returns (total: int)
    ensures total == Sweep(first, second)
  {
    var i, j := 0, 0;
    total := 0;
    while i < |first| && j < |second|
      invariant 0 <= i <= |first| && 0 <= j <= |second|
      invariant Sweep(first, second) == total + Sweep(first[i..], second[j..])
      decreases |first| - i + |second| - j
    {
      var a, b := first[i], second[j];
      assert first[i..][1..] == first[i + 1..] && second[j..][1..] == second[j + 1..];
      total := total + Max(0, Min(a.end, b.end) - Max(a.start, b.start));
      if a.end <= b.end {
        i := i + 1;
      } else {
        j := j + 1;
      }
    }
  }

  function BusyTime(s: seq<Interval>, t: seq<Interval>): nat {
    |Covered(s) + Covered(t)|
  }

  /** The reported fraction; Undefined stands for the division by zero. */
  datatype Fraction = Undefined | Fraction(value: real)

  /** x is a over b, and there is no x if b is 0. */
  predicate IsQuotient(x: Fraction, a: int, b: int) {
    && (x.Undefined? <==> b == 0)
    && (x.Fraction? ==> x.value * b as real == a as real)
  }

  lemma DivisionIsQuotient(a: int, b: int)
    requires b != 0
    ensures IsQuotient(Fraction(a as real / b as real), a, b)
  {
  }

  method OverlapFraction(first: seq<Interval>, second: seq<Interval>) returns (f: Fraction)
    ensures IsQuotient(f, Sweep(first, second), Duration(first) + Duration(second) - Sweep(first, second))
  {
    var shared := Overlap(first, second);
    var total := Sum(first + second);
    DurationConcat(first, second);
    if total - shared == 0 {
      return Undefined;
    }
    DivisionIsQuotient(shared, total - shared);
    return Fraction(shared as real / (total - shared) as real);
  }

  /** For internally disjoint lists the fraction is the shared time over the time during which at
      least one stage computes, a number between 0 and 1. */
  lemma FractionOfBusyTime(s: seq<Interval>, t: seq<Interval>, swept: int, rest: int, f: Fraction)
    requires Disjoint(s) && Disjoint(t)
    requires swept == Sweep(s, t) && rest == Duration(s) + Duration(t) - swept && IsQuotient(f, swept, rest)
    ensures f.Undefined? <==> Covered(s) == {} && Covered(t) == {}
    ensures f.Fraction? ==>
      && |Covered(s) + Covered(t)| > 0 && 0.0 <= f.value <= 1.0
      && f.value == |Covered(s) * Covered(t)| as real / |Covered(s) + Covered(t)| as real
  {
    BusyTimeIsDenominator(s, t);
    BusyQuotient(s, t, f, swept, rest);
  }

  lemma BusyQuotient(s: seq<Interval>, t: seq<Interval>, f: Fraction, a: nat, b: nat)
    requires IsQuotient(f, a, b) && a <= b && a == |Covered(s) * Covered(t)| && b == |Covered(s) + Covered(t)|
    ensures f.Undefined? <==> Covered(s) == {} && Covered(t) == {}
    ensures f.Fraction? ==> b > 0 && 0.0 <= f.value <= 1.0 && f.value == a as real / b as real
  {
    EmptyUnion(Covered(s), Covered(t));
    UnitQuotient(f, a, b);
  }

  lemma UnitQuotient(f: Fraction, a: nat, b: nat)
    requires IsQuotient(f, a, b) && a <= b
    ensures f.Fraction? ==> b > 0 && f.value == a as real / b as real && 0.0 <= f.value <= 1.0
  {
    if f.Fraction? {
      QuotientInUnit(a, b);
      OnlyQuotient(f.value, a as real, b as real);
    }
  }

  lemma OnlyQuotient(x: real, a: real, b: real)
    requires b > 0.0 && x * b == a
    ensures x == a / b
  {
  }

  lemma BusyTimeIsDenominator(s: seq<Interval>, t: seq<Interval>)
    requires Disjoint(s) && Disjoint(t)
    ensures SharedTime(s, t) == Sweep(s, t) && BusyTime(s, t) == Duration(s) + Duration(t) - Sweep(s, t)
    ensures SharedTime(s, t) <= BusyTime(s, t)
  {
    SweepIsSharedTime(s, t);
    UnionMeasure(s, t);
    SubsetSize(Covered(s) * Covered(t), Covered(s) + Covered(t));
  }

  lemma QuotientInUnit(a: int, b: int)
    requires 0 <= a <= b && b > 0
    ensures 0.0 <= a as real / b as real <= 1.0
  {
  }

  lemma {:induction false} DurationConcat(s: seq<Interval>, t: seq<Interval>)
    ensures Duration(s + t) == Duration(s) + Duration(t)
  {
    if s == [] {
      assert s + t == t;
    } else {
      assert (s + t)[1..] == s[1..] + t;
      DurationConcat(s[1..], t);
    }
  }

  method Sum(s: seq<Interval>) returns (total: int)
    ensures total == Duration(s)
  {
    total := 0;
    for i := 0 to |s|
      invariant Duration(s) == total + Duration(s[i..])
    {
      assert s[i..][1..] == s[i + 1..];
      total := total + (s[i].end - s[i].start);
    }
  }
}
