/** Tie-averaged ranking, the input of the rank correlation. */
module RankValues {
  import opened Sorting

  function Below(v: real): real -> bool { (x: real) => x < v }
  function Equal(v: real): real -> bool { (x: real) => x == v }

  /** (number of smaller values) + (number of equal values + 1) / 2. */
  function Rank(values: seq<real>, v: real): real {
    Count(values, Below(v)) as real + (Count(values, Equal(v)) as real + 1.0) / 2.0
  }

  function Indices(n: nat): seq<nat> {
    seq(n, (i: nat) => i)
  }

  function At(values: seq<real>, i: nat): real {
    if i < |values| then values[i] else 0.0
  }

  function ByValue(values: seq<real>): (nat, nat) -> bool {
    (i: nat, j: nat) => At(values, i) <= At(values, j)
  }

  /** values in the order of the given indices. */
  function Gathered(values: seq<real>, order: seq<nat>): (r: seq<real>)
    ensures |r| == |order| && forall k | 0 <= k < |order| :: r[k] == At(values, order[k])
  {
    seq(|order|, k requires 0 <= k < |order| => At(values, order[k]))
  }

  /** Gathering what is left without position k leaves out the k-th value. */
  lemma GatheredSplit(values: seq<real>, t: seq<nat>, k: nat)
    requires k < |t|
    ensures multiset(Gathered(values, t)) == multiset{At(values, t[k])} + multiset(Gathered(values, Without(t, k)))
  {
    var g := Gathered(values, t);
    assert g == g[..k] + [g[k]] + g[k + 1..];
    assert Gathered(values, Without(t, k)) == g[..k] + g[k + 1..];
  }

  lemma {:induction false} GatheredPermutation(values: seq<real>, s: seq<nat>, t: seq<nat>)
    requires IsPermutation(s, t)
    ensures IsPermutation(Gathered(values, s), Gathered(values, t))
  {
    PermutationSize(s, t);
    if s == [] {
      assert Gathered(values, s) == Gathered(values, t);
    } else {
      var k := FindFirst(s, t);
      GatheredPermutation(values, s[1..], Without(t, k));
      GatheredSplit(values, t, k);
      GatheredSplit(values, s, 0);
      assert Without(s, 0) == s[1..];
    }
  }

  /** The sorted index order: a permutation of the indices, ascending by value. */
  lemma OrderFacts(values: seq<real>, order: seq<nat>)
    requires order == SortBy(Indices(|values|), ByValue(values))
    ensures |order| == |values| && Distinct(order)
    ensures forall k | 0 <= k < |order| :: order[k] < |values|
    ensures forall i: nat | i < |values| :: i in order
    ensures forall i, j | 0 <= i < j < |order| :: At(values, order[i]) <= At(values, order[j])
    ensures IsPermutation(Gathered(values, order), values)
  {
    var all := Indices(|values|);
    SortFacts(all, ByValue(values));
    PermutationSize(order, all);
    DistinctPermutation(all, order);
    GatheredPermutation(values, order, all);
    assert Gathered(values, all) == values;
    forall k | 0 <= k < |order|
      ensures order[k] < |values|
    {
      assert order[k] in order;
      assert order[k] in all;
    }
    forall i: nat | i < |values|
      ensures i in order
    {
      assert all[i] == i;
      assert i in all;
    }
    forall i, j | 0 <= i < j < |order|
      ensures At(values, order[i]) <= At(values, order[j])
    {
      assert ByValue(values)(order[i], order[j]);
    }
  }

  /** The stretch [index, end) of equal values in the sorted order fixes their rank. */
  lemma StretchRank(values: seq<real>, sorted: seq<real>, index: nat, end: nat)
    requires IsPermutation(sorted, values)
    requires index < end <= |sorted|
    requires forall k | index <= k < end :: sorted[k] == sorted[index]
    requires forall k | 0 <= k < index :: sorted[k] < sorted[index]
    requires forall k | end <= k < |sorted| :: sorted[index] < sorted[k]
    ensures Rank(values, sorted[index]) == (index + 1 + end) as real / 2.0
  {
    var v := sorted[index];
    CountStretch(sorted, Below(v), 0, index);
    CountStretch(sorted, Equal(v), index, end);
    CountPermutation(sorted, values, Below(v));
    CountPermutation(sorted, values, Equal(v));
  }

  /** The first `done` positions of the order have received their rank. */
  ghost predicate Filled(values: seq<real>, order: seq<nat>, ranks: seq<real>, done: nat) {
    && |ranks| == |values| && done <= |order|
    && forall k | 0 <= k < done :: order[k] < |ranks| && ranks[order[k]] == Rank(values, At(values, order[k]))
  }

  lemma FillNext(values: seq<real>, order: seq<nat>, ranks: seq<real>, k: nat, rank: real)
    requires Filled(values, order, ranks, k) && k < |order| && order[k] < |values|
    requires Distinct(order) && rank == Rank(values, At(values, order[k]))
    ensures Filled(values, order, ranks[order[k] := rank], k + 1)
  {
  }

  lemma AllFilled(values: seq<real>, order: seq<nat>, ranks: seq<real>)
    requires Filled(values, order, ranks, |order|)
    requires forall i: nat | i < |values| :: i in order
    ensures forall i | 0 <= i < |values| :: ranks[i] == Rank(values, values[i])
  {
    forall i | 0 <= i < |values|
      ensures ranks[i] == Rank(values, values[i])
    {
      assert i in order;
      var k :| 0 <= k < |order| && order[k] == i;
    }
  }

  /** A whole run of equal values shares its rank. */
  lemma StretchShares(values: seq<real>, order: seq<nat>, index: nat, end: nat)
    requires order == SortBy(Indices(|values|), ByValue(values)) && index < end <= |values| == |order|
    requires index > 0 ==> At(values, order[index - 1]) < At(values, order[index])
    requires end < |values| ==> At(values, order[end]) != At(values, order[index])
    requires forall k | index <= k < end :: At(values, order[k]) == At(values, order[index])
    ensures end < |values| ==> At(values, order[end - 1]) < At(values, order[end])
    ensures forall k | index <= k < end ::
              Rank(values, At(values, order[k])) == (index + 1 + end) as real / 2.0
  {
    OrderFacts(values, order);
    StretchRank(values, Gathered(values, order), index, end);
  }

  /** The inner while loop: the end of the run of values equal to the one at index,
      and with it the rank the whole run shares. */
  method StretchEnd(values: seq<real>, order: seq<nat>, index: nat) returns (end: nat)
    requires order == SortBy(Indices(|values|), ByValue(values)) && index < |values|
    requires |order| == |values| && forall k | 0 <= k < |order| :: order[k] < |values|
    requires index > 0 ==> At(values, order[index - 1]) < At(values, order[index])
    ensures index < end <= |values|
    ensures end < |values| ==> At(values, order[end - 1]) < At(values, order[end])
    ensures forall k | index <= k < end ::
              Rank(values, At(values, order[k])) == (index + 1 + end) as real / 2.0
  {
    end := index + 1;
    while end < |values| && values[order[end]] == values[order[index]]
      invariant index < end <= |values|
      invariant forall k | index <= k < end :: At(values, order[k]) == At(values, order[index])
    {
      end := end + 1;
    }
    StretchShares(values, order, index, end);
  }

  /** The first n positions that satisfy p. */
  ghost function Places(values: seq<real>, p: real -> bool, n: nat): set<int>
    requires n <= |values|
  {
    set j | 0 <= j < n && p(values[j])
  }

  lemma {:induction false} CountIsSize(values: seq<real>, p: real -> bool, n: nat)
    requires n <= |values|
    ensures Count(values[..n], p) == |Places(values, p, n)|
  {
    if n == 0 {
      assert Places(values, p, 0) == {};
    } else {
      CountIsSize(values, p, n - 1);
      CountNext(values, p, n - 1);
      PlacesNext(values, p, n - 1);
    }
  }

  lemma PlacesNext(values: seq<real>, p: real -> bool, n: nat)
    requires n < |values|
    ensures |Places(values, p, n + 1)| == |Places(values, p, n)| + if p(values[n]) then 1 else 0
  {
    var rest := Places(values, p, n);
    assert Places(values, p, n + 1) == if p(values[n]) then rest + {n} else rest;
  }

  lemma CountNext(values: seq<real>, p: real -> bool, n: nat)
    requires n < |values|
    ensures Count(values[..n + 1], p) == Count(values[..n], p) + if p(values[n]) then 1 else 0
  {
    assert values[..n + 1] == values[..n] + [values[n]];
    CountConcat(values[..n], [values[n]], p);
  }

  /** The rank in terms of positions. */
  lemma RankMeans(values: seq<real>, v: real)
    ensures var below, equal := set j | 0 <= j < |values| && values[j] < v, set j | 0 <= j < |values| && values[j] == v;
      Rank(values, v) == |below| as real + (|equal| as real + 1.0) / 2.0
  {
    assert values[..|values|] == values;
    CountIsSize(values, Below(v), |values|);
    CountIsSize(values, Equal(v), |values|);
    assert Places(values, Below(v), |values|) == set j | 0 <= j < |values| && values[j] < v;
    assert Places(values, Equal(v), |values|) == set j | 0 <= j < |values| && values[j] == v;
  }

  method Ranks(values: seq<real>) returns (ranks: seq<real>)
    ensures |ranks| == |values|
    ensures forall i | 0 <= i < |values| :: ranks[i] == Rank(values, values[i])
  {
    var n := |values|;
    var order := SortBy(Indices(n), ByValue(values));
    OrderFacts(values, order);
    ranks := seq(n, _ => 0.0);
    var index := 0;
    while index < n
      invariant 0 <= index <= n
      invariant 0 < index < n ==> At(values, order[index - 1]) < At(values, order[index])
      invariant Filled(values, order, ranks, index)
    {
      var end := StretchEnd(values, order, index);
      var rank := (index + 1 + end) as real / 2.0;
      for position := index to end
        invariant Filled(values, order, ranks, position)
      {
        FillNext(values, order, ranks, position, rank);
        ranks := ranks[order[position] := rank];
      }
      index := end;
    }
    AllFilled(values, order, ranks);
  }

  // ------------------------------------------------------------- consequences

  lemma {:induction false} CountAtMost(s: seq<real>, v: real, w: real)
    requires v < w
    ensures Count(s, Below(v)) + Count(s, Equal(v)) <= Count(s, Below(w))
  {
    if s != [] {
      CountAtMost(s[1..], v, w);
    }
  }

  lemma {:induction false} CountPositive(s: seq<real>, v: real)
    requires v in s
    ensures Count(s, Equal(v)) >= 1
  {
    if s[0] != v {
      CountPositive(s[1..], v);
    }
  }

  /** Ranks order the values exactly: smaller value, smaller rank; equal, equal. */
  lemma RankRespectsOrder(values: seq<real>, v: real, w: real)
    requires v in values && w in values
    ensures v < w <==> Rank(values, v) < Rank(values, w)
  {
    CountPositive(values, v);
    CountPositive(values, w);
    if v < w {
      CountAtMost(values, v, w);
    } else if w < v {
      CountAtMost(values, w, v);
    }
  }

  ghost predicate StrictlyIncreasingOn(values: seq<real>, f: real -> real) {
    forall v, w | v in values && w in values && v < w :: f(v) < f(w)
  }

  function Image(values: seq<real>, f: real -> real): (r: seq<real>)
    ensures |r| == |values| && forall i | 0 <= i < |values| :: r[i] == f(values[i])
  {
    seq(|values|, i requires 0 <= i < |values| => f(values[i]))
  }

  lemma {:induction false} CountImage(s: seq<real>, f: real -> real, p: real -> bool, q: real -> bool)
    requires forall i | 0 <= i < |s| :: p(f(s[i])) == q(s[i])
    ensures Count(Image(s, f), p) == Count(s, q)
  {
    if s != [] {
      assert Image(s, f)[1..] == Image(s[1..], f);
      CountImage(s[1..], f, p, q);
    }
  }

  /** Ranks depend on the order of the values only. */
  lemma RankInvariant(values: seq<real>, f: real -> real, v: real)
    requires StrictlyIncreasingOn(values, f) && v in values
    ensures Rank(Image(values, f), f(v)) == Rank(values, v)
  {
    forall i | 0 <= i < |values|
      ensures Below(f(v))(f(values[i])) == Below(v)(values[i])
      ensures Equal(f(v))(f(values[i])) == Equal(v)(values[i])
    {
      var w := values[i];
      assert w in values;
    }
    CountImage(values, f, Below(f(v)), Below(v));
    CountImage(values, f, Equal(f(v)), Equal(v));
  }

  /** The sum over t of (smaller + half the equal) values in s. */
  function Weight(s: seq<real>, t: seq<real>): real {
    if t == [] then 0.0
    else Weight(s, t[1..]) + Count(s, Below(t[0])) as real + Count(s, Equal(t[0])) as real / 2.0
  }

  function RankSum(values: seq<real>, t: seq<real>): real {
    if t == [] then 0.0 else RankSum(values, t[1..]) + Rank(values, t[0])
  }

  lemma {:induction false} WeightGrows(x: real, s: seq<real>, t: seq<real>)
    ensures Weight([x] + s, t) + Count(t, Below(x)) as real + Count(t, Equal(x)) as real / 2.0
            == Weight(s, t) + |t| as real
  {
    if t != [] {
      WeightGrows(x, s, t[1..]);
      assert ([x] + s)[1..] == s;
    }
  }

  lemma {:induction false} WeightOfSelf(s: seq<real>)
    ensures Weight(s, s) == |s| as real * |s| as real / 2.0
  {
    if s != [] {
      var x, t := s[0], s[1..];
      assert s == [x] + t;
      WeightOfSelf(t);
      WeightGrows(x, t, t);
    }
  }

  lemma {:induction false} RankSumIsWeight(values: seq<real>, t: seq<real>)
    ensures RankSum(values, t) == Weight(values, t) + |t| as real / 2.0
  {
    if t != [] {
      RankSumIsWeight(values, t[1..]);
    }
  }

  /** Whatever the ties, the ranks of n values sum to n(n+1)/2. */
  lemma RanksSum(values: seq<real>)
    ensures RankSum(values, values) == (|values| * (|values| + 1)) as real / 2.0
  {
    RankSumIsWeight(values, values);
    WeightOfSelf(values);
  }
}
