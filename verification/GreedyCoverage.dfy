/** The greedy order in which implementation strata are sampled: a stratum that shows most
    axis values not seen so far comes first. A stratum is a row of axis values, each coded as
    an integer in the order of the original's tuples. */
module GreedyCoverage {
  import opened Sets
  import opened Sorting

  type Tuple = seq<int>

  ghost predicate Shaped(rows: seq<Tuple>, axes: nat) {
    forall k | 0 <= k < |rows| :: |rows[k]| == axes
  }

  // ------------------------------------------------------------ scoring a row

  /** How many picked rows carry value v on the axis: the original's count dictionary. */
  function Uses(picked: seq<Tuple>, axis: nat, v: int): nat {
    if picked == [] then 0
    else
      var row := picked[|picked| - 1];
      Uses(picked[..|picked| - 1], axis, v) + if axis < |row| && row[axis] == v then 1 else 0
  }

  /** The number of the row's first n axis values that no picked row carries. */
  function NewValues(picked: seq<Tuple>, row: Tuple, n: nat): nat
    requires n <= |row|
  {
    if n == 0 then 0
    else NewValues(picked, row, n - 1) + if Uses(picked, n - 1, row[n - 1]) == 0 then 1 else 0
  }

  function TotalUses(picked: seq<Tuple>, row: Tuple, n: nat): nat
    requires n <= |row|
  {
    if n == 0 then 0 else TotalUses(picked, row, n - 1) + Uses(picked, n - 1, row[n - 1])
  }

  /** Tuple comparison. */
  predicate TupleLeq(a: Tuple, b: Tuple) {
    a == [] || (b != [] && (a[0] < b[0] || (a[0] == b[0] && TupleLeq(a[1..], b[1..]))))
  }

  /** The key of the original's min: fewest old values, then fewest uses, then the row. */
  predicate Precedes(picked: seq<Tuple>, a: Tuple, b: Tuple) {
    var na, nb := NewValues(picked, a, |a|), NewValues(picked, b, |b|);
    var ta, tb := TotalUses(picked, a, |a|), TotalUses(picked, b, |b|);
    na > nb || (na == nb && (ta < tb || (ta == tb && TupleLeq(a, b))))
  }

  lemma {:induction false} TupleOrder(a: Tuple, b: Tuple, c: Tuple)
    ensures TupleLeq(a, b) || TupleLeq(b, a)
    ensures TupleLeq(a, b) && TupleLeq(b, a) ==> a == b
    ensures TupleLeq(a, b) && TupleLeq(b, c) ==> TupleLeq(a, c)
  {
    if a != [] && b != [] {
      TupleOrder(a[1..], b[1..], if c == [] then [] else c[1..]);
      assert a == [a[0]] + a[1..] && b == [b[0]] + b[1..];
    }
  }

  // --------------------------------------------------- greedy orders, as values

  /** From position `from` on, every row precedes all later ones given the rows before it. */
  ghost predicate Greedy(order: seq<Tuple>, from: nat, upTo: nat) {
    forall k, j | from <= k < upTo && k < j < |order| :: Precedes(order[..k], order[k], order[j])
  }

  /** The part of greediness that coverage rests on. */
  ghost predicate ShowsMost(order: seq<Tuple>, upTo: nat) {
    forall k, j | 0 <= k < upTo && k < j < |order| ::
      NewValues(order[..k], order[k], |order[k]|) >= NewValues(order[..k], order[j], |order[j]|)
  }

  /** Every axis value of every row of `order` occurs among the picked rows. */
  ghost predicate Covers(picked: seq<Tuple>, order: seq<Tuple>) {
    forall j, axis | 0 <= j < |order| && 0 <= axis < |order[j]| :: Uses(picked, axis, order[j][axis]) > 0
  }

  /** The key is a total order, so the greedy order of a set of strata is unique: it does not
      depend on the iteration order of the set. */
  lemma {:induction false} GreedyUnique(a: seq<Tuple>, b: seq<Tuple>, from: nat, upTo: nat)
    requires Greedy(a, from, upTo) && Greedy(b, from, upTo)
    requires |a| == |b| && from <= upTo <= |a| && a[..from] == b[..from]
    requires Distinct(a) && Distinct(b) && forall r :: r in a <==> r in b
    ensures a[..upTo] == b[..upTo]
    decreases upTo
  {
    if from < upTo {
      var k := upTo - 1;
      GreedyUnique(a, b, from, k);
      var i := PositionAfter(a, b, k);
      var j := PositionAfter(b, a, k);
      if i != k && j != k {
        TupleOrder(a[k], b[k], []);
      }
      assert a[..upTo] == a[..k] + [a[k]] && b[..upTo] == b[..k] + [b[k]];
    }
  }

  lemma PositionAfter(a: seq<Tuple>, b: seq<Tuple>, k: nat) returns (i: nat)
    requires |a| == |b| && k < |a| && a[..k] == b[..k]
    requires Distinct(b) && forall r :: r in a <==> r in b
    ensures k <= i < |a| && a[i] == b[k]
  {
    assert b[k] in b;
    assert b[k] in a;
    i :| 0 <= i < |a| && a[i] == b[k];
    forall x | 0 <= x < k
      ensures a[x] == b[x]
    {
      assert a[..k][x] == b[..k][x];
    }
  }

  // ------------------------------------------------------------- coverage

  lemma {:induction false} NoNewValues(picked: seq<Tuple>, row: Tuple, n: nat)
    requires n <= |row| && NewValues(picked, row, n) == 0
    ensures forall axis | 0 <= axis < n :: Uses(picked, axis, row[axis]) > 0
  {
    if n > 0 {
      NoNewValues(picked, row, n - 1);
    }
  }

  lemma {:induction false} UsesOfMember(picked: seq<Tuple>, axis: nat, k: nat)
    requires k < |picked| && axis < |picked[k]|
    ensures Uses(picked, axis, picked[k][axis]) > 0
  {
    if k < |picked| - 1 {
      UsesOfMember(picked[..|picked| - 1], axis, k);
    }
  }

  /** As soon as a pick adds no axis value, every value of every axis has been picked. */
  lemma SaturatedPickCovers(order: seq<Tuple>, upTo: nat, k: nat)
    requires ShowsMost(order, upTo) && k < upTo && k < |order|
    requires NewValues(order[..k], order[k], |order[k]|) == 0
    ensures Covers(order[..k], order)
  {
    forall j, axis | 0 <= j < |order| && 0 <= axis < |order[j]|
      ensures Uses(order[..k], axis, order[j][axis]) > 0
    {
      if j < k {
        UsesOfMember(order[..k], axis, j);
      } else {
        NoNewValues(order[..k], order[j], |order[j]|);
      }
    }
  }

  /** The distinct values on one axis, and their total number over the first n axes. */
  function Values(rows: seq<Tuple>, axis: nat): set<int> {
    if rows == [] then {}
    else
      var row := rows[|rows| - 1];
      Values(rows[..|rows| - 1], axis) + if axis < |row| then {row[axis]} else {}
  }

  function DistinctValues(rows: seq<Tuple>, n: nat): nat {
    if n == 0 then 0 else DistinctValues(rows, n - 1) + |Values(rows, n - 1)|
  }

  lemma {:induction false} ValuesAreUsed(rows: seq<Tuple>, axis: nat, v: int)
    ensures v in Values(rows, axis) <==> Uses(rows, axis, v) > 0
  {
    if rows != [] {
      ValuesAreUsed(rows[..|rows| - 1], axis, v);
    }
  }

  lemma ValuesGrow(picked: seq<Tuple>, row: Tuple, axis: nat)
    requires axis < |row|
    ensures |Values(picked + [row], axis)| ==
            |Values(picked, axis)| + if Uses(picked, axis, row[axis]) == 0 then 1 else 0
  {
    ValuesAreUsed(picked, axis, row[axis]);
    assert (picked + [row])[..|picked|] == picked;
    var seen, v := Values(picked, axis), row[axis];
    assert Values(picked + [row], axis) == seen + {v};
    if v in seen {
      assert seen + {v} == seen;
    } else {
      AddOne(seen, v);
    }
  }

  lemma {:induction false} DistinctValuesGrow(picked: seq<Tuple>, row: Tuple, n: nat)
    requires n <= |row|
    ensures DistinctValues(picked + [row], n) == DistinctValues(picked, n) + NewValues(picked, row, n)
  {
    if n > 0 {
      DistinctValuesGrow(picked, row, n - 1);
      ValuesGrow(picked, row, n - 1);
    }
  }

  lemma PrefixValues(order: seq<Tuple>, k: nat, axis: nat)
    requires k <= |order|
    ensures Values(order[..k], axis) <= Values(order, axis)
    decreases |order| - k
  {
    if k < |order| {
      PrefixValues(order, k + 1, axis);
      assert order[..k + 1][..k] == order[..k];
    } else {
      assert order[..k] == order;
    }
  }

  /** A prefix has no more distinct values, and as many only if it covers every axis. */
  lemma {:induction false} PrefixDistinctValues(order: seq<Tuple>, k: nat, n: nat)
    requires k <= |order|
    ensures DistinctValues(order[..k], n) <= DistinctValues(order, n)
    ensures DistinctValues(order[..k], n) == DistinctValues(order, n) ==>
              forall axis: nat | axis < n :: Values(order[..k], axis) == Values(order, axis)
  {
    if n > 0 {
      PrefixDistinctValues(order, k, n - 1);
      PrefixValues(order, k, n - 1);
      SubsetSize(Values(order[..k], n - 1), Values(order, n - 1));
      if |Values(order[..k], n - 1)| == |Values(order, n - 1)| {
        SubsetOfSameSize(Values(order[..k], n - 1), Values(order, n - 1));
      }
    }
  }

  lemma {:induction false} AllNewAtFirst(row: Tuple, n: nat)
    requires n <= |row|
    ensures NewValues([], row, n) == n
  {
    if n > 0 {
      AllNewAtFirst(row, n - 1);
    }
  }

  /** While some value is missing, every pick after the first adds at least one. */
  lemma {:induction false} PicksAddValues(order: seq<Tuple>, axes: nat, upTo: nat, k: nat)
    requires Shaped(order, axes) && ShowsMost(order, upTo) && 1 <= k <= upTo && k <= |order|
    ensures Covers(order[..k], order) || DistinctValues(order[..k], axes) >= axes + k - 1
    decreases k
  {
    assert order[..k] == order[..k - 1] + [order[k - 1]];
    DistinctValuesGrow(order[..k - 1], order[k - 1], axes);
    if k == 1 {
      AllNewAtFirst(order[0], axes);
      assert order[..0] == [];
    } else {
      PicksAddValues(order, axes, upTo, k - 1);
      if NewValues(order[..k - 1], order[k - 1], axes) == 0 {
        SaturatedPickCovers(order, upTo, k - 1);
      }
      if Covers(order[..k - 1], order) {
        CoverageStays(order, k - 1);
      }
    }
  }

  lemma CoverageStays(order: seq<Tuple>, k: nat)
    requires k < |order| && Covers(order[..k], order)
    ensures Covers(order[..k + 1], order)
  {
    assert order[..k + 1][..k] == order[..k];
  }

  /** Full axis coverage comes within (distinct axis values - axes + 1) picks. */
  lemma CoverageBound(order: seq<Tuple>, axes: nat, upTo: nat, m: nat)
    requires Shaped(order, axes) && ShowsMost(order, upTo) && upTo <= |order|
    requires order != [] && DistinctValues(order, axes) + 1 <= m + axes && 1 <= m <= upTo
    ensures Covers(order[..m], order)
  {
    PicksAddValues(order, axes, upTo, m);
    if !Covers(order[..m], order) {
      PrefixDistinctValues(order, m, axes);
      forall j, axis | 0 <= j < |order| && 0 <= axis < |order[j]|
        ensures Uses(order[..m], axis, order[j][axis]) > 0
      {
        UsesOfMember(order, axis, j);
        ValuesAreUsed(order, axis, order[j][axis]);
        ValuesAreUsed(order[..m], axis, order[j][axis]);
      }
    }
  }

  // -------------------------------------------------------- the greedy loops

  /** A count dictionary records exactly the uses of one axis among the picked rows. */
  ghost predicate TracksAxis(count: map<int, nat>, picked: seq<Tuple>, axis: nat) {
    forall v: int ::
      && (v in count <==> Uses(picked, axis, v) > 0)
      && (v in count ==> count[v] == Uses(picked, axis, v))
  }

  ghost predicate Tracks(counts: seq<map<int, nat>>, picked: seq<Tuple>, axes: nat) {
    |counts| == axes && forall axis: nat | axis < axes :: TracksAxis(counts[axis], picked, axis)
  }

  function UnseenValues(counts: seq<map<int, nat>>, row: Tuple, n: nat): nat
    requires n <= |row| == |counts|
  {
    if n == 0 then 0
    else UnseenValues(counts, row, n - 1) + if row[n - 1] !in counts[n - 1] then 1 else 0
  }

  function SumOfCounts(counts: seq<map<int, nat>>, row: Tuple, n: nat): nat
    requires n <= |row| == |counts|
  {
    if n == 0 then 0
    else SumOfCounts(counts, row, n - 1) + if row[n - 1] in counts[n - 1] then counts[n - 1][row[n - 1]] else 0
  }

  lemma {:induction false} CountsScore(counts: seq<map<int, nat>>, picked: seq<Tuple>, row: Tuple, n: nat)
    requires n <= |row| == |counts| && Tracks(counts, picked, |counts|)
    ensures UnseenValues(counts, row, n) == NewValues(picked, row, n)
    ensures SumOfCounts(counts, row, n) == TotalUses(picked, row, n)
  {
    if n > 0 {
      CountsScore(counts, picked, row, n - 1);
      assert TracksAxis(counts[n - 1], picked, n - 1);
    }
  }

  /** Python's min over the remaining rows with the three-part key. */
  method Best(remaining: set<Tuple>, counts: seq<map<int, nat>>, ghost picked: seq<Tuple>) returns (best: Tuple)
    requires remaining != {} && Tracks(counts, picked, |counts|)
    requires forall r | r in remaining :: |r| == |counts|
    ensures best in remaining && forall r | r in remaining :: Precedes(picked, best, r)
  {
    var axes := |counts|;
    best := Take(remaining);
    TupleOrder(best, best, best);
    var todo := remaining - {best};
    while todo != {}
      invariant todo <= remaining && best in remaining
      invariant forall r | r in remaining && r !in todo :: Precedes(picked, best, r)
      decreases |todo|
    {
      var row := Take(todo);
      CountsScore(counts, picked, row, axes);
      CountsScore(counts, picked, best, axes);
      var newRow, newBest := UnseenValues(counts, row, axes), UnseenValues(counts, best, axes);
      var useRow, useBest := SumOfCounts(counts, row, axes), SumOfCounts(counts, best, axes);
      if newRow > newBest || (newRow == newBest && (useRow < useBest || (useRow == useBest && TupleLeq(row, best)))) {
        PrecedesAll(picked, row, best, remaining, todo);
        best := row;
      }
      TupleOrder(row, best, best);
      todo := todo - {row};
    }
  }

  lemma PrecedesAll(picked: seq<Tuple>, a: Tuple, b: Tuple, rows: set<Tuple>, todo: set<Tuple>)
    requires Precedes(picked, a, b)
    requires forall r | r in rows && r !in todo :: Precedes(picked, b, r)
    ensures forall r | r in rows && r !in todo :: Precedes(picked, a, r)
  {
    forall r | r in rows && r !in todo
      ensures Precedes(picked, a, r)
    {
      TupleOrder(a, b, r);
    }
  }

  method CountPick(counts: seq<map<int, nat>>, ghost picked: seq<Tuple>, row: Tuple)
    returns (updated: seq<map<int, nat>>)
    requires Tracks(counts, picked, |counts|) && |row| == |counts|
    ensures Tracks(updated, picked + [row], |row|)
  {
    updated := counts;
    assert (picked + [row])[..|picked|] == picked;
    for axis := 0 to |row|
      invariant |updated| == |row|
      invariant forall i: nat | i < axis :: TracksAxis(updated[i], picked + [row], i)
      invariant forall i: nat | axis <= i < |row| :: updated[i] == counts[i]
    {
      var v := row[axis];
      var count := if v in updated[axis] then updated[axis][v] else 0;
      updated := updated[axis := updated[axis][v := count + 1]];
    }
  }

  /** The rows picked so far precede one another in order and all remaining rows. */
  ghost predicate GreedySoFar(picked: seq<Tuple>, from: nat, remaining: set<Tuple>) {
    && Greedy(picked, from, |picked|)
    && forall k, r | from <= k < |picked| && r in remaining :: Precedes(picked[..k], picked[k], r)
  }

  /** picked and remaining partition the strata. */
  ghost predicate Partition(picked: seq<Tuple>, remaining: set<Tuple>, strata: set<Tuple>) {
    && Distinct(picked)
    && (forall r | r in picked :: r !in remaining)
    && (forall r :: r in strata <==> r in picked || r in remaining)
  }

  lemma PickStep(picked: seq<Tuple>, from: nat, remaining: set<Tuple>, best: Tuple)
    requires GreedySoFar(picked, from, remaining) && best in remaining
    requires from <= |picked| ==> forall r | r in remaining :: Precedes(picked, best, r)
    ensures GreedySoFar(picked + [best], from, remaining - {best})
  {
    var next := picked + [best];
    forall k, j | from <= k < |next| && k < j < |next|
      ensures Precedes(next[..k], next[k], next[j])
    {
      assert next[..k] == picked[..k];
    }
    forall k, r | from <= k < |next| && r in remaining - {best}
      ensures Precedes(next[..k], next[k], r)
    {
      assert next[..k] == picked[..k];
      assert picked[..|picked|] == picked;
    }
  }

  lemma PartitionStep(picked: seq<Tuple>, remaining: set<Tuple>, strata: set<Tuple>, best: Tuple)
    requires Partition(picked, remaining, strata) && best in remaining
    ensures Partition(picked + [best], remaining - {best}, strata)
  {
  }

  /** The original's coverage claim for a finished order: every value of every axis is
      picked within (distinct axis values - axes + 1) picks, if the greedy part is that long. */
  lemma GreedyOrderCovers(order: seq<Tuple>, axes: nat, from: nat, upTo: nat, m: nat)
    requires Shaped(order, axes) && Greedy(order, from, upTo) && from <= 1 && upTo <= |order|
    requires order != [] && DistinctValues(order, axes) + 1 <= m + axes && 1 <= m <= upTo
    ensures Covers(order[..m], order)
  {
    GreedyShowsMost(order, axes, from, upTo);
    CoverageBound(order, axes, upTo, m);
  }

  /** What holds between picks. */
  ghost predicate Picking(picked: seq<Tuple>, from: nat, remaining: set<Tuple>, strata: set<Tuple>) {
    Partition(picked, remaining, strata) && GreedySoFar(picked, from, remaining)
  }

  /** One pass of either loop: take the best remaining row and count it. */
  method Pick(picked: seq<Tuple>, from: nat, remaining: set<Tuple>, counts: seq<map<int, nat>>,
              ghost strata: set<Tuple>)
    returns (next: seq<Tuple>, left: set<Tuple>, updated: seq<map<int, nat>>)
    requires remaining != {} && Picking(picked, from, remaining, strata) && Tracks(counts, picked, |counts|)
    requires forall r | r in strata :: |r| == |counts|
    ensures Picking(next, from, left, strata) && Tracks(updated, next, |counts|)
    ensures picked <= next && |next| == |picked| + 1 && |left| == |remaining| - 1
  {
    var key := Best(remaining, counts, picked);
    PickStep(picked, from, remaining, key);
    PartitionStep(picked, remaining, strata, key);
    updated := CountPick(counts, picked, key);
    next := picked + [key];
    left := remaining - {key};
  }

  /** Appending the remaining rows in tuple order completes the order. */
  lemma FinishOrder(picked: seq<Tuple>, from: nat, remaining: set<Tuple>, rest: seq<Tuple>, strata: set<Tuple>)
    requires Picking(picked, from, remaining, strata)
    requires Distinct(rest) && forall r :: r in rest <==> r in remaining
    ensures Partition(picked + rest, {}, strata) && Greedy(picked + rest, from, |picked|)
  {
    AppendRest(picked, from, remaining, rest);
    DistinctConcat(picked, rest);
  }

  /** Appending the remaining rows in any order keeps the greedy prefix greedy. */
  lemma AppendRest(picked: seq<Tuple>, from: nat, remaining: set<Tuple>, rest: seq<Tuple>)
    requires GreedySoFar(picked, from, remaining)
    requires forall r | r in rest :: r in remaining
    ensures Greedy(picked + rest, from, |picked|)
  {
    var order := picked + rest;
    forall k, j | from <= k < |picked| && k < j < |order|
      ensures Precedes(order[..k], order[k], order[j])
    {
      assert order[..k] == picked[..k];
      if j >= |picked| {
        assert order[j] == rest[j - |picked|];
        assert order[j] in rest;
      }
    }
  }

  /** Greedy picks show most; so does any very first row, which shows all its values. */
  lemma GreedyShowsMost(order: seq<Tuple>, axes: nat, from: nat, upTo: nat)
    requires Shaped(order, axes) && Greedy(order, from, upTo) && from <= 1
    ensures ShowsMost(order, upTo)
  {
    forall k, j | 0 <= k < upTo && k < j < |order|
      ensures NewValues(order[..k], order[k], |order[k]|) >= NewValues(order[..k], order[j], |order[j]|)
    {
      if k == 0 {
        AllNewAtFirst(order[k], axes);
        AllNewAtFirst(order[j], axes);
        assert order[..0] == [];
      }
    }
  }

  /** The factor strata, all of them ordered greedily. */
  method FactorStrataOrder(strata: set<Tuple>, axes: nat) returns (keys: seq<Tuple>)
    requires forall r | r in strata :: |r| == axes
    ensures Partition(keys, {}, strata)
    ensures Greedy(keys, 0, |keys|)
  {
    var remaining := strata;
    keys := [];
    var coverage: seq<map<int, nat>> := seq(axes, _ => map[]);
    while remaining != {}
      invariant Picking(keys, 0, remaining, strata)
      invariant Tracks(coverage, keys, axes)
      decreases |remaining|
    {
      keys, remaining, coverage := Pick(keys, 0, remaining, coverage, strata);
    }
  }

  const GREEDY_CAP: nat := 32

  /** The default strategy first when it exists, then greedily up to the cap, then the rest in
      tuple order. */
  ghost predicate IsStrategyOrder(order: seq<Tuple>, strategies: set<Tuple>, default: Tuple) {
    && Partition(order, {}, strategies)
    && (default in strategies ==> order != [] && order[0] == default)
    && Greedy(order, if default in strategies then 1 else 0, Capped(|order|))
    && forall i, j | GREEDY_CAP <= i < j < |order| :: TupleLeq(order[i], order[j])
  }

  /** Python's sorted over the keys of a dictionary. */
  ghost predicate IsSortedOrder(order: seq<Tuple>, keys: set<Tuple>) {
    && Partition(order, {}, keys)
    && forall i, j | 0 <= i < j < |order| :: TupleLeq(order[i], order[j])
  }

  method StrategyOrder(strategies: set<Tuple>, default: Tuple) returns (result: seq<Tuple>)
    requires forall r | r in strategies :: |r| == |default|
    ensures IsStrategyOrder(result, strategies, default)
  {
    var remaining := strategies;
    var picked: seq<Tuple> := [];
    var counts: seq<map<int, nat>> := seq(|default|, _ => map[]);
    var from: nat := if default in strategies then 1 else 0;
    if default in remaining {
      PickStep(picked, from, remaining, default);
      PartitionStep(picked, remaining, strategies, default);
      counts := CountPick(counts, picked, default);
      assert [] + [default] == [default];
      picked := [default];
      remaining := remaining - {default};
    }
    while remaining != {} && |picked| < GREEDY_CAP
      invariant Picking(picked, from, remaining, strategies)
      invariant Tracks(counts, picked, |default|)
      invariant from <= |picked| <= GREEDY_CAP
      invariant default in strategies ==> picked[0] == default
      decreases |remaining|
    {
      picked, remaining, counts := Pick(picked, from, remaining, counts, strategies);
    }
    var rest := SortedTuples(remaining);
    FinishOrder(picked, from, remaining, rest, strategies);
    result := picked + rest;
  }

  function Capped(n: nat): nat {
    if n <= GREEDY_CAP then n else GREEDY_CAP
  }

  method SortedTuples(rows: set<Tuple>) returns (s: seq<Tuple>)
    ensures IsSortedOrder(s, rows)
    ensures rows == {} ==> s == []
  {
    var listed: seq<Tuple> := [];
    var todo := rows;
    while todo != {}
      invariant Partition(listed, todo, rows)
      invariant rows == {} ==> listed == []
      decreases |todo|
    {
      var r := Take(todo);
      PartitionStep(listed, todo, rows, r);
      listed := listed + [r];
      todo := todo - {r};
    }
    var le := (a: Tuple, b: Tuple) => TupleLeq(a, b);
    TupleLeqIsPreorder(le);
    s := SortBy(listed, le);
    SortFacts(listed, le);
    PermutationSize(s, listed);
    DistinctPermutation(listed, s);
  }

  lemma TupleLeqIsPreorder(le: (Tuple, Tuple) -> bool)
    requires forall a, b :: le(a, b) == TupleLeq(a, b)
    ensures TotalPreorder(le)
  {
    forall a, b
      ensures le(a, b) || le(b, a)
    {
      TupleOrder(a, b, []);
    }
    forall a, b, c | le(a, b) && le(b, c)
      ensures le(a, c)
    {
      TupleOrder(a, b, c);
    }
  }

  // ------------------------------------------------------------- determinism

  lemma {:induction false} SortedTailUnique(a: seq<Tuple>, b: seq<Tuple>, from: nat, upTo: nat)
    requires |a| == |b| && from <= upTo <= |a| && a[..from] == b[..from]
    requires Distinct(a) && Distinct(b) && forall r :: r in a <==> r in b
    requires forall i, j | from <= i < j < |a| :: TupleLeq(a[i], a[j])
    requires forall i, j | from <= i < j < |b| :: TupleLeq(b[i], b[j])
    ensures a[..upTo] == b[..upTo]
    decreases upTo
  {
    if from < upTo {
      var k := upTo - 1;
      SortedTailUnique(a, b, from, k);
      var i := PositionAfter(a, b, k);
      var j := PositionAfter(b, a, k);
      if i != k && j != k {
        TupleOrder(a[k], b[k], []);
      }
      assert a[..upTo] == a[..k] + [a[k]] && b[..upTo] == b[..k] + [b[k]];
    }
  }

  lemma SamePartition(a: seq<Tuple>, b: seq<Tuple>, strata: set<Tuple>)
    requires Partition(a, {}, strata) && Partition(b, {}, strata)
    ensures |a| == |b| && forall r :: r in a <==> r in b
  {
    SameMembersPermutation(a, b);
  }

  lemma SortedOrderUnique(a: seq<Tuple>, b: seq<Tuple>, keys: set<Tuple>)
    requires IsSortedOrder(a, keys) && IsSortedOrder(b, keys)
    ensures a == b
  {
    SamePartition(a, b, keys);
    assert a[..0] == b[..0];
    SortedTailUnique(a, b, 0, |a|);
    assert a[..|a|] == a && b[..|b|] == b;
  }

  lemma FactorOrderUnique(a: seq<Tuple>, b: seq<Tuple>, strata: set<Tuple>)
    requires Partition(a, {}, strata) && Partition(b, {}, strata)
    requires Greedy(a, 0, |a|) && Greedy(b, 0, |b|)
    ensures a == b
  {
    SamePartition(a, b, strata);
    assert a[..0] == b[..0];
    GreedyUnique(a, b, 0, |a|);
    assert a[..|a|] == a && b[..|b|] == b;
  }

  lemma StrategyOrderUnique(a: seq<Tuple>, b: seq<Tuple>, strategies: set<Tuple>, default: Tuple)
    requires IsStrategyOrder(a, strategies, default) && IsStrategyOrder(b, strategies, default)
    ensures a == b
  {
    SamePartition(a, b, strategies);
    var from := if default in strategies then 1 else 0;
    var cap := Capped(|a|);
    assert a[..from] == b[..from];
    GreedyUnique(a, b, from, cap);
    SortedTailUnique(a, b, cap, |a|);
    assert a[..|a|] == a && b[..|b|] == b;
  }
}
