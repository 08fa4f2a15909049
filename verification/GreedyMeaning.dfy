/** The greedy orders described by counting, without the scores that compute them. */
module GreedyMeaning {
  import opened Sets
  import opened Sorting
  import opened GreedyCoverage

  /** The axes on which no picked row has this row's value. */
  function NewAxes(picked: seq<Tuple>, row: Tuple): set<int> {
    set i: int | 0 <= i < |row| && forall r | r in picked :: |r| <= i || r[i] != row[i]
  }

  /** The pairs of a picked row and an axis on which it has this row's value. */
  function Repeats(picked: seq<Tuple>, row: Tuple): set<(int, int)> {
    set k: int, i: int | 0 <= k < |picked| && 0 <= i < |row| && i < |picked[k]| && picked[k][i] == row[i] :: (k, i)
  }

  /** a comes before b in the order of tuples: where they differ first, a is smaller or has ended. */
  ghost predicate TupleBefore(a: Tuple, b: Tuple) {
    exists i :: 0 <= i <= |a| && i < |b| && a[..i] == b[..i] && (i == |a| || a[i] < b[i])
  }

  /** Most new axis values first, then fewest repeated ones, then the smaller tuple. */
  ghost predicate Preferred(picked: seq<Tuple>, a: Tuple, b: Tuple) {
    || |NewAxes(picked, a)| > |NewAxes(picked, b)|
    || (&& |NewAxes(picked, a)| == |NewAxes(picked, b)|
        && (|| |Repeats(picked, a)| < |Repeats(picked, b)|
            || (|Repeats(picked, a)| == |Repeats(picked, b)| && TupleBefore(a, b))))
  }

  // --- the scores count these sets

  lemma TailBefore(a: Tuple, b: Tuple)
    requires a != [] && b != [] && TupleBefore(a, b) && a[0] == b[0]
    ensures TupleBefore(a[1..], b[1..])
  {
    var s, t := a[1..], b[1..];
    var i :| 0 <= i <= |a| && i < |b| && a[..i] == b[..i] && (i == |a| || a[i] < b[i]);
    assert i > 0;
    assert s[..i - 1] == a[..i][1..] && t[..i - 1] == b[..i][1..];
  }

  lemma BeforeByTail(a: Tuple, b: Tuple)
    requires a != [] && b != [] && a[0] == b[0] && TupleBefore(a[1..], b[1..])
    ensures TupleBefore(a, b)
  {
    var s, t := a[1..], b[1..];
    var i :| 0 <= i <= |s| && i < |t| && s[..i] == t[..i] && (i == |s| || s[i] < t[i]);
    assert a[..i + 1] == [a[0]] + s[..i] && b[..i + 1] == [b[0]] + t[..i];
  }

  lemma TupleBeforeTail(a: Tuple, b: Tuple)
    requires a != [] && b != [] && a[0] == b[0]
    ensures TupleBefore(a, b) <==> TupleBefore(a[1..], b[1..])
  {
    if TupleBefore(a, b) {
      TailBefore(a, b);
    }
    if TupleBefore(a[1..], b[1..]) {
      BeforeByTail(a, b);
    }
  }

  lemma SameHead(a: Tuple, b: Tuple, i: nat)
    requires a != [] && b != [] && i <= |a| && i <= |b|
    ensures a[..i] == b[..i] && i > 0 ==> a[0] == b[0]
  {
    if a[..i] == b[..i] && i > 0 {
      assert a[..i][0] == a[0] && b[..i][0] == b[0];
    }
  }

  lemma TupleBeforeHead(a: Tuple, b: Tuple)
    requires a != [] && b != [] && a[0] != b[0]
    ensures TupleBefore(a, b) <==> a[0] < b[0]
  {
    assert a[..0] == b[..0];
    if TupleBefore(a, b) {
      var i :| 0 <= i <= |a| && i < |b| && a[..i] == b[..i] && (i == |a| || a[i] < b[i]);
      SameHead(a, b, i);
    }
  }

  lemma {:induction false} TupleLeqMeaning(a: Tuple, b: Tuple)
    ensures TupleLeq(a, b) <==> a == b || TupleBefore(a, b)
  {
    if a == [] {
      assert b != [] ==> a[..0] == b[..0];
    } else if b != [] && a[0] == b[0] {
      TupleLeqMeaning(a[1..], b[1..]);
      TupleBeforeTail(a, b);
      assert a == [a[0]] + a[1..] && b == [b[0]] + b[1..];
    } else if b != [] {
      TupleBeforeHead(a, b);
    }
  }

  lemma {:induction false} UnusedMeaning(picked: seq<Tuple>, axis: nat, v: int)
    ensures Uses(picked, axis, v) == 0 <==> forall r | r in picked :: |r| <= axis || r[axis] != v
  {
    if picked != [] {
      var rest := picked[..|picked| - 1];
      UnusedMeaning(rest, axis, v);
      assert picked == rest + [picked[|picked| - 1]];
    }
  }

  function NewAxesBelow(picked: seq<Tuple>, row: Tuple, n: int): set<int> {
    set i: int | i in NewAxes(picked, row) && i < n
  }

  lemma NewAxesStep(picked: seq<Tuple>, row: Tuple, n: nat)
    requires n < |row|
    ensures |NewAxesBelow(picked, row, n + 1)| ==
            |NewAxesBelow(picked, row, n)| + if Uses(picked, n, row[n]) == 0 then 1 else 0
  {
    UnusedMeaning(picked, n, row[n]);
    var before, next := NewAxesBelow(picked, row, n), NewAxesBelow(picked, row, n + 1);
    assert n in NewAxes(picked, row) <==> Uses(picked, n, row[n]) == 0;
    assert next == if n in NewAxes(picked, row) then before + {n} else before;
  }

  lemma {:induction false} NewValuesCount(picked: seq<Tuple>, row: Tuple, n: nat)
    requires n <= |row|
    ensures NewValues(picked, row, n) == |NewAxesBelow(picked, row, n)|
  {
    if n == 0 {
      assert NewAxesBelow(picked, row, 0) == {};
    } else {
      NewValuesCount(picked, row, n - 1);
      NewAxesStep(picked, row, n - 1);
    }
  }

  /** The repeats on one axis. */
  function RepeatsOn(picked: seq<Tuple>, axis: int, v: int): set<(int, int)> {
    set k: int | 0 <= k < |picked| && 0 <= axis < |picked[k]| && picked[k][axis] == v :: (k, axis)
  }

  lemma {:induction false} UsesCount(picked: seq<Tuple>, axis: nat, v: int)
    ensures Uses(picked, axis, v) == |RepeatsOn(picked, axis, v)|
  {
    if picked == [] {
      assert RepeatsOn(picked, axis, v) == {};
    } else {
      var last := |picked| - 1;
      UsesCount(picked[..last], axis, v);
      var before := RepeatsOn(picked[..last], axis, v);
      var row := picked[last];
      assert RepeatsOn(picked, axis, v) == if axis < |row| && row[axis] == v then before + {(last, axis)} else before;
    }
  }

  lemma {:induction false} TotalUsesCount(picked: seq<Tuple>, row: Tuple, n: nat)
    requires n <= |row|
    ensures TotalUses(picked, row, n) == |set p | p in Repeats(picked, row) && p.1 < n|
  {
    if n == 0 {
      assert (set p | p in Repeats(picked, row) && p.1 < n) == {};
    } else {
      TotalUsesCount(picked, row, n - 1);
      UsesCount(picked, n - 1, row[n - 1]);
      OneAxisMore(picked, row, n);
    }
  }

  lemma OneAxisMore(picked: seq<Tuple>, row: Tuple, n: nat)
    requires 0 < n <= |row|
    ensures |set p | p in Repeats(picked, row) && p.1 < n| ==
            |set p | p in Repeats(picked, row) && p.1 < n - 1| + |RepeatsOn(picked, n - 1, row[n - 1])|
  {
    var fewer, here := (set p | p in Repeats(picked, row) && p.1 < n - 1), RepeatsOn(picked, n - 1, row[n - 1]);
    assert (set p | p in Repeats(picked, row) && p.1 < n) == fewer + here;
    assert fewer * here == {};
    UnionSize(fewer, here);
  }

  lemma PrecedesMeaning(picked: seq<Tuple>, a: Tuple, b: Tuple)
    ensures Precedes(picked, a, b) <==> Preferred(picked, a, b) || a == b
  {
    forall r: Tuple
      ensures NewValues(picked, r, |r|) == |NewAxes(picked, r)| && TotalUses(picked, r, |r|) == |Repeats(picked, r)|
    {
      NewValuesCount(picked, r, |r|);
      TotalUsesCount(picked, r, |r|);
      assert NewAxes(picked, r) == NewAxesBelow(picked, r, |r|);
      assert Repeats(picked, r) == set p | p in Repeats(picked, r) && p.1 < |r|;
    }
    TupleLeqMeaning(a, b);
  }

  // --- the orders

  /** Every stratum once. */
  ghost predicate Enumerates(order: seq<Tuple>, strata: set<Tuple>) {
    && (forall i, j | 0 <= i < j < |order| :: order[i] != order[j])
    && (forall r :: r in order <==> r in strata)
  }

  /** The strategies: the default first if it exists, then up to the 32nd always the preferred one of those
      that are left, then the rest in tuple order. */
  lemma StrategyOrderMeaning(order: seq<Tuple>, strategies: set<Tuple>, default: Tuple)
    ensures IsStrategyOrder(order, strategies, default) <==>
      && Enumerates(order, strategies)
      && (default in strategies ==> order != [] && order[0] == default)
      && (forall k, j | 0 <= k < 32 && k < j < |order| && (k > 0 || default !in strategies) ::
            Preferred(order[..k], order[k], order[j]))
      && (forall i, j | 32 <= i < j < |order| :: TupleBefore(order[i], order[j]))
  {
    PreferredEverywhere(order);
  }

  lemma PreferredEverywhere(order: seq<Tuple>)
    ensures forall k, j | 0 <= k < j < |order| ::
      Precedes(order[..k], order[k], order[j]) <==> Preferred(order[..k], order[k], order[j]) || order[k] == order[j]
    ensures forall k, j | 0 <= k < j < |order| ::
      TupleLeq(order[k], order[j]) <==> order[k] == order[j] || TupleBefore(order[k], order[j])
  {
    forall k, j | 0 <= k < j < |order|
      ensures Precedes(order[..k], order[k], order[j]) <==>
              Preferred(order[..k], order[k], order[j]) || order[k] == order[j]
      ensures TupleLeq(order[k], order[j]) <==> order[k] == order[j] || TupleBefore(order[k], order[j])
    {
      PrecedesMeaning(order[..k], order[k], order[j]);
      TupleLeqMeaning(order[k], order[j]);
    }
  }

  /** The factor strata: always the preferred one of those that are left. */
  lemma FactorOrderMeaning(order: seq<Tuple>, strata: set<Tuple>)
    ensures Partition(order, {}, strata) && Greedy(order, 0, |order|) <==>
      && Enumerates(order, strata)
      && forall k, j | 0 <= k < j < |order| :: Preferred(order[..k], order[k], order[j])
  {
    PreferredEverywhere(order);
  }

  lemma SortedOrderMeaning(order: seq<Tuple>, keys: set<Tuple>)
    ensures IsSortedOrder(order, keys) <==>
      Enumerates(order, keys) && forall i, j | 0 <= i < j < |order| :: TupleBefore(order[i], order[j])
  {
    PreferredEverywhere(order);
  }

  // --- coverage

  /** Which value occurs on which axis. */
  function AxisValues(rows: seq<Tuple>): set<(int, int)> {
    set r, i: int | r in rows && 0 <= i < |r| :: (i, r[i])
  }

  lemma {:induction false} ValuesOnAxis(rows: seq<Tuple>, axis: nat, v: int)
    ensures v in Values(rows, axis) <==> (axis, v) in AxisValues(rows)
  {
    ValuesAreUsed(rows, axis, v);
    UnusedMeaning(rows, axis, v);
    if exists r | r in rows :: axis < |r| && r[axis] == v {
      var r :| r in rows && axis < |r| && r[axis] == v;
      assert (axis, r[axis]) in AxisValues(rows);
    }
  }

  lemma Tagged(values: set<int>, axis: int) returns (pairs: set<(int, int)>)
    ensures |pairs| == |values| && forall p :: p in pairs <==> p.0 == axis && p.1 in values
    decreases values
  {
    if values == {} {
      pairs := {};
    } else {
      var v := Sets.Pick(values);
      pairs := Tagged(values - {v}, axis);
      assert (axis, v) !in pairs;
      pairs := pairs + {(axis, v)};
    }
  }

  function BelowAxis(pairs: set<(int, int)>, n: int): set<(int, int)> {
    set p | p in pairs && p.0 < n
  }

  lemma AxisStep(rows: seq<Tuple>, n: nat)
    ensures |BelowAxis(AxisValues(rows), n + 1)| == |BelowAxis(AxisValues(rows), n)| + |Values(rows, n)|
  {
    var all := AxisValues(rows);
    var here := Tagged(Values(rows, n), n);
    forall p: (int, int)
      ensures p in BelowAxis(all, n + 1) <==> p in BelowAxis(all, n) || p in here
    {
      ValuesOnAxis(rows, n, p.1);
      assert p == (p.0, p.1);
    }
    SizeOfParts(BelowAxis(all, n + 1), BelowAxis(all, n), here);
  }

  lemma SizeOfParts<T>(whole: set<T>, a: set<T>, b: set<T>)
    requires (forall x :: x in whole <==> x in a || x in b) && forall x | x in a :: x !in b
    ensures |whole| == |a| + |b|
  {
    assert whole == a + b;
    assert a * b == {};
    UnionSize(a, b);
  }

  lemma {:induction false} DistinctValuesCount(rows: seq<Tuple>, n: nat)
    ensures DistinctValues(rows, n) == |BelowAxis(AxisValues(rows), n)|
  {
    if n == 0 {
      assert BelowAxis(AxisValues(rows), 0) == {};
    } else {
      DistinctValuesCount(rows, n - 1);
      AxisStep(rows, n - 1);
    }
  }

  /** An order that prefers new values on all but its first entry, up to some length, shows every value of
      every axis as soon as its entries number the values minus the axes plus one. */
  lemma PreferringCovers(order: seq<Tuple>, axes: nat, upTo: nat, m: nat)
    requires forall r | r in order :: |r| == axes
    requires forall k, j | 1 <= k < upTo && k < j < |order| :: Preferred(order[..k], order[k], order[j])
    requires 1 <= m <= upTo <= |order| && |AxisValues(order)| + 1 <= m + axes
    ensures AxisValues(order[..m]) == AxisValues(order)
  {
    forall k, j | 1 <= k < upTo && k < j < |order|
      ensures Precedes(order[..k], order[k], order[j])
    {
      PrecedesMeaning(order[..k], order[k], order[j]);
    }
    DistinctValuesCount(order, axes);
    assert AxisValues(order) == BelowAxis(AxisValues(order), axes);
    GreedyOrderCovers(order, axes, 1, upTo, m);
    CoversMeaning(order, m);
  }

  lemma CoversMeaning(order: seq<Tuple>, m: nat)
    requires m <= |order| && Covers(order[..m], order)
    ensures AxisValues(order[..m]) == AxisValues(order)
  {
    forall p | p in AxisValues(order)
      ensures p in AxisValues(order[..m])
    {
      var r, i: int :| r in order && 0 <= i < |r| && p == (i, r[i]);
      var j :| 0 <= j < |order| && order[j] == r;
      assert Uses(order[..m], i, order[j][i]) > 0;
      ValuesAreUsed(order[..m], i, r[i]);
      ValuesOnAxis(order[..m], i, r[i]);
    }
  }
}
