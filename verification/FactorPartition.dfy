/** Which factor lists a multi-factor transform may be compiled from. */
module FactorPartition {

  function Sum(s: seq<int>): int {
    if s == [] then 0 else s[0] + Sum(s[1..])
  }

  ghost predicate AllAtLeastOne(s: seq<int>) {
    forall i | 0 <= i < |s| :: s[i] >= 1
  }

  /** The factors are the macro stages, each split into consecutive factors. */
  ghost predicate Refines(factors: seq<int>, macro: seq<int>)
    decreases |macro|
  {
    if macro == [] then factors == []
    else exists k :: 0 <= k <= |factors| && Sum(factors[..k]) == macro[0] && Refines(factors[k..], macro[1..])
  }

  /** The accepted partitions, without reference to the boundary sets. */
  ghost predicate ValidPartition(total: int, macro: seq<int>, factors: seq<int>) {
    && 1 <= total <= 30
    && Sum(macro) == total && Sum(factors) == total
    && AllAtLeastOne(macro) && (forall i | 0 <= i < |factors| :: 1 <= factors[i] <= 14)
    && Refines(factors, macro)
  }

  // ------------------------------------------------------------ partial sums

  lemma {:induction false} SumSplit(s: seq<int>, k: nat)
    requires k <= |s|
    ensures Sum(s) == Sum(s[..k]) + Sum(s[k..])
  {
    if k == 0 {
      assert s[0..] == s;
    } else {
      SumSplit(s[1..], k - 1);
      assert s[..k][1..] == s[1..][..k - 1];
      assert s[1..][k - 1..] == s[k..];
    }
  }

  lemma {:induction false} SumPositive(s: seq<int>)
    requires AllAtLeastOne(s)
    ensures Sum(s) >= |s|
  {
    if s != [] {
      SumPositive(s[1..]);
    }
  }

  /** Partial sums of positive numbers ascend strictly. */
  lemma PrefixSumsAscend(s: seq<int>, j: nat, k: nat)
    requires AllAtLeastOne(s) && j <= k <= |s|
    ensures Sum(s[..k]) - Sum(s[..j]) >= k - j
  {
    SumSplit(s[..k], j);
    assert s[..k][..j] == s[..j];
    SumPositive(s[..k][j..]);
  }

  /** Every macro boundary is a factor boundary. */
  ghost predicate IsEnd(factors: seq<int>, e: int) {
    exists k :: 0 <= k <= |factors| && Sum(factors[..k]) == e
  }

  ghost predicate BoundariesMet(factors: seq<int>, macro: seq<int>) {
    forall j | 0 <= j <= |macro| :: IsEnd(factors, Sum(macro[..j]))
  }

  lemma {:induction false} RefinementMeetsBoundaries(factors: seq<int>, macro: seq<int>)
    requires Refines(factors, macro)
    ensures BoundariesMet(factors, macro)
    decreases |macro|
  {
    assert factors[..0] == [] && macro[..0] == [];
    if macro != [] {
      var k :| 0 <= k <= |factors| && Sum(factors[..k]) == macro[0] && Refines(factors[k..], macro[1..]);
      RefinementMeetsBoundaries(factors[k..], macro[1..]);
      forall j | 1 <= j <= |macro|
        ensures IsEnd(factors, Sum(macro[..j]))
      {
        assert IsEnd(factors[k..], Sum(macro[1..][..j - 1]));
        var i :| 0 <= i <= |factors[k..]| && Sum(factors[k..][..i]) == Sum(macro[1..][..j - 1]);
        assert macro[..j][1..] == macro[1..][..j - 1];
        SumSplit(factors[..k + i], k);
        assert factors[..k + i][..k] == factors[..k] && factors[..k + i][k..] == factors[k..][..i];
        assert Sum(factors[..k + i]) == Sum(macro[..j]);
      }
    }
    assert Sum(factors[..0]) == 0;
  }

  lemma {:induction false} BoundariesGiveRefinement(factors: seq<int>, macro: seq<int>)
    requires AllAtLeastOne(factors) && AllAtLeastOne(macro) && Sum(factors) == Sum(macro)
    requires BoundariesMet(factors, macro)
    ensures Refines(factors, macro)
    decreases |macro|
  {
    if macro == [] {
      SumPositive(factors);
    } else {
      assert IsEnd(factors, Sum(macro[..1]));
      assert macro[..1] == [macro[0]] && Sum([macro[0]]) == macro[0] + Sum([]);
      var k :| 0 <= k <= |factors| && Sum(factors[..k]) == macro[0];
      SumSplit(factors, k);
      forall j | 0 <= j <= |macro[1..]|
        ensures IsEnd(factors[k..], Sum(macro[1..][..j]))
      {
        ShiftBoundary(factors, macro, k, j);
      }
      BoundariesGiveRefinement(factors[k..], macro[1..]);
    }
  }

  lemma ShiftBoundary(factors: seq<int>, macro: seq<int>, k: nat, j: nat)
    requires AllAtLeastOne(factors) && AllAtLeastOne(macro) && BoundariesMet(factors, macro)
    requires macro != [] && k <= |factors| && Sum(factors[..k]) == macro[0] && j < |macro|
    ensures IsEnd(factors[k..], Sum(macro[1..][..j]))
  {
    assert IsEnd(factors, Sum(macro[..j + 1]));
    var i :| 0 <= i <= |factors| && Sum(factors[..i]) == Sum(macro[..j + 1]);
    assert macro[..j + 1][1..] == macro[1..][..j];
    SumPositive(macro[1..][..j]);
    if i < k {
      PrefixSumsAscend(factors, i, k);
      assert false;
    }
    SumSplit(factors[..i], k);
    assert factors[..i][..k] == factors[..k] && factors[..i][k..] == factors[k..][..i - k];
    assert Sum(factors[k..][..i - k]) == Sum(macro[1..][..j]);
  }

  /** The accepted partitions in terms of partial sums: positive factors of at most 2^14 that add up to a
      transform of at most 2^30, with a factor ending wherever a stage ends. */
  lemma PartitionMeans(total: int, macro: seq<int>, factors: seq<int>)
    ensures ValidPartition(total, macro, factors) <==>
      && 1 <= total <= 30 && Sum(macro) == total && Sum(factors) == total
      && (forall i | 0 <= i < |macro| :: macro[i] >= 1)
      && (forall i | 0 <= i < |factors| :: 1 <= factors[i] <= 14)
      && BoundariesMet(factors, macro)
  {
    if AllAtLeastOne(factors) && AllAtLeastOne(macro) && Sum(factors) == Sum(macro) {
      if Refines(factors, macro) {
        RefinementMeetsBoundaries(factors, macro);
      }
      if BoundariesMet(factors, macro) {
        BoundariesGiveRefinement(factors, macro);
      }
    }
  }

  // ------------------------------------------------------------- the check

  /** Missing lists fall back: no stage partition is one stage, no factor partition is the
      stage partition. The boundary check runs over a set of factor ends. */
  method CheckPartition(total: int, stagePartition: seq<int>, factorPartition: seq<int>)
    returns (ok: bool, factors: seq<int>)
    ensures var macro := if stagePartition == [] then [total] else stagePartition;
      && factors == (if factorPartition == [] then macro else factorPartition)
      && (ok <==> ValidPartition(total, macro, factors))
  {
    var macro := if stagePartition == [] then [total] else stagePartition;
    factors := if factorPartition == [] then macro else factorPartition;
    if !(1 <= total <= 30) {
      return false, factors;
    }
    if Sum(macro) != total || Sum(factors) != total
       || (exists i | 0 <= i < |macro| :: macro[i] < 1)
       || (exists i | 0 <= i < |factors| :: factors[i] < 1 || factors[i] > 14) {
      return false, factors;
    }
    ok := BoundariesHold(macro, factors);
    return ok, factors;
  }

  /** Both loops over the boundaries. */
  method BoundariesHold(macro: seq<int>, factors: seq<int>) returns (ok: bool)
    requires AllAtLeastOne(macro) && AllAtLeastOne(factors) && Sum(macro) == Sum(factors)
    ensures ok <==> Refines(factors, macro)
  {
    var ends := FactorEnds(factors);
    var done := 0;
    assert factors[..0] == [] && macro[..0] == [] && Sum(factors[..0]) == 0;
    for i := 0 to |macro|
      invariant done == Sum(macro[..i])
      invariant forall j | 0 <= j <= i :: IsEnd(factors, Sum(macro[..j]))
    {
      PartialSum(macro, i);
      done := done + macro[i];
      MacroEndPositive(macro, factors, i + 1);
      if done !in ends {
        NotAnEnd(factors, macro, i + 1);
        return false;
      }
    }
    BoundariesGiveRefinement(factors, macro);
    return true;
  }

  lemma PartialSum(s: seq<int>, i: nat)
    requires i < |s|
    ensures Sum(s[..i + 1]) == Sum(s[..i]) + s[i]
  {
    SumSplit(s[..i + 1], i);
    assert s[..i + 1][..i] == s[..i] && s[..i + 1][i..] == [s[i]];
    assert Sum([s[i]]) == s[i] + Sum([]);
  }

  lemma NotAnEnd(factors: seq<int>, macro: seq<int>, j: nat)
    requires j <= |macro| && !IsEnd(factors, Sum(macro[..j]))
    ensures !Refines(factors, macro)
  {
    if Refines(factors, macro) {
      RefinementMeetsBoundaries(factors, macro);
    }
  }

  method FactorEnds(factors: seq<int>) returns (ends: set<int>)
    ensures forall e: int :: e in ends <==> exists k :: 1 <= k <= |factors| && Sum(factors[..k]) == e
  {
    ends := {};
    var done := 0;
    for i := 0 to |factors|
      invariant done == Sum(factors[..i])
      invariant forall e: int :: e in ends <==> exists k :: 1 <= k <= i && Sum(factors[..k]) == e
    {
      PartialSum(factors, i);
      done := done + factors[i];
      ends := ends + {done};
    }
  }

  /** No macro stage ends at 0. */
  lemma MacroEndPositive(macro: seq<int>, factors: seq<int>, j: nat)
    requires AllAtLeastOne(macro) && 1 <= j <= |macro|
    ensures IsEnd(factors, Sum(macro[..j])) <==> exists k :: 1 <= k <= |factors| && Sum(factors[..k]) == Sum(macro[..j])
  {
    SumPositive(macro[..j]);
    assert factors[..0] == [];
  }
}
