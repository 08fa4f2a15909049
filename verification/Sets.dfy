/** Finite sets: a witness, sizes of disjoint unions and extensionality over int. */
module Sets {

  ghost function Pick<T>(s: set<T>): (x: T)
    requires s != {}
    ensures x in s
  {
    var x :| x in s; x
  }

  method Take<T(==)>(s: set<T>) returns (x: T)
    requires s != {}
    ensures x in s
  {
    x :| x in s;
  }

  lemma IntSubset(a: set<int>, b: set<int>)
    requires forall x: int | x in a :: x in b
    ensures a <= b
  {
    if a - b != {} {
      var x := Pick(a - b);
    }
    assert a == a * b + (a - b);
  }

  lemma SubsetOfSameSize<T>(a: set<T>, b: set<T>)
    requires a <= b && |a| >= |b|
    ensures a == b
  {
    assert b == a + (b - a);
    assert |b| == |a| + |b - a|;
  }

  lemma SubsetSize<T>(a: set<T>, b: set<T>)
    requires a <= b
    ensures |a| <= |b|
  {
    assert b == a + (b - a);
    assert |b| == |a| + |b - a|;
  }

  lemma DisjointIntSets(a: set<int>, b: set<int>)
    requires forall x: int | x in a :: x !in b
    ensures a * b == {} && |a + b| == |a| + |b|
  {
    if a * b != {} {
      var x := Pick(a * b);
    }
    assert |a * b| == 0;
  }

  lemma AddOne<T>(s: set<T>, x: T)
    requires x !in s
    ensures |s + {x}| == |s| + 1
  {
  }

  lemma UnionSize<T>(a: set<T>, b: set<T>)
    ensures |a + b| == |a| + |b| - |a * b|
    ensures a * b == b * a
  {
  }

  /** The union meets c in no more points than its parts do together. */
  lemma UnionMeetsAtMost(p: set<int>, rest: set<int>, c: set<int>)
    ensures |(p + rest) * c| <= |p * c| + |rest * c|
  {
    assert (p + rest) * c == p * c + rest * c;
    UnionSize(p * c, rest * c);
  }

  lemma EmptyMeetsSplit(c: set<int>, p: set<int>, rest: set<int>)
    requires |c * (p + rest)| == 0
    ensures |c * p| == 0 && |c * rest| == 0
  {
    SubsetSize(c * p, c * (p + rest));
    SubsetSize(c * rest, c * (p + rest));
  }

  lemma EmptyUnion(a: set<int>, b: set<int>)
    ensures |a + b| == 0 <==> a == {} && b == {}
  {
  }

  lemma SplitIntersection(p: set<int>, rest: set<int>, c: set<int>)
    requires forall x: int | x in p :: x !in rest
    ensures |(p + rest) * c| == |p * c| + |rest * c|
  {
    DisjointIntSets(p * c, rest * c);
    assert (p + rest) * c == p * c + rest * c;
  }

  lemma SameIntSet(a: set<int>, b: set<int>)
    requires forall x: int :: x in a <==> x in b
    ensures a == b
  {
    if a - b != {} {
      var x := Pick(a - b);
    }
    if b - a != {} {
      var x := Pick(b - a);
    }
    assert a == (a - b) + a * b && b == (b - a) + a * b;
  }
}
