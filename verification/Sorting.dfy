/** Stable sorting by a total preorder, permutations and counting. */
module Sorting {

  ghost predicate TotalPreorder<T(!new)>(le: (T, T) -> bool) {
    && (forall x, y :: le(x, y) || le(y, x))
    && (forall x, y, z :: le(x, y) && le(y, z) ==> le(x, z))
  }

  ghost predicate Sorted<T>(s: seq<T>, le: (T, T) -> bool) {
    forall i, j | 0 <= i < j < |s| :: le(s[i], s[j])
  }

  ghost predicate Distinct<T>(s: seq<T>) {
    forall i, j | 0 <= i < j < |s| :: s[i] != s[j]
  }

  ghost predicate IsPermutation<T>(s: seq<T>, t: seq<T>) {
    multiset(s) == multiset(t)
  }

  function Insert<T>(x: T, s: seq<T>, le: (T, T) -> bool): seq<T> {
    if s == [] || le(x, s[0]) then [x] + s else [s[0]] + Insert(x, s[1..], le)
  }

  /** Elements that compare equal keep their order. */
  function SortBy<T>(s: seq<T>, le: (T, T) -> bool): seq<T> {
    if s == [] then [] else Insert(s[0], SortBy(s[1..], le), le)
  }

  lemma {:induction false} InsertFacts<T(!new)>(x: T, s: seq<T>, le: (T, T) -> bool)
    requires TotalPreorder(le) && Sorted(s, le)
    ensures Sorted(Insert(x, s, le), le)
    ensures multiset(Insert(x, s, le)) == multiset{x} + multiset(s)
  {
    if s == [] {
    } else if le(x, s[0]) {
      assert forall i | 0 <= i < |s| :: le(x, s[i]);
    } else {
      var r := Insert(x, s[1..], le);
      InsertFacts(x, s[1..], le);
      assert s == [s[0]] + s[1..];
      forall i | 0 <= i < |r|
        ensures le(s[0], r[i])
      {
        assert r[i] in multiset(r);
        assert r[i] == x || r[i] in s[1..];
      }
    }
  }

  lemma {:induction false} SortFacts<T(!new)>(s: seq<T>, le: (T, T) -> bool)
    requires TotalPreorder(le)
    ensures Sorted(SortBy(s, le), le)
    ensures IsPermutation(SortBy(s, le), s)
    ensures |SortBy(s, le)| == |s|
  {
    if s != [] {
      SortFacts(s[1..], le);
      InsertFacts(s[0], SortBy(s[1..], le), le);
      assert s == [s[0]] + s[1..];
    }
    PermutationSize(SortBy(s, le), s);
  }

  /** Some occurrence of x stands before one of y. */
  ghost predicate StoodBefore<T>(s: seq<T>, x: T, y: T) {
    exists a, b :: 0 <= a < b < |s| && s[a] == x && s[b] == y
  }

  lemma StoodBeforeInRest<T>(s: seq<T>, x: T, y: T)
    requires s != [] && StoodBefore(s[1..], x, y)
    ensures StoodBefore(s, x, y)
  {
    var a, b :| 0 <= a < b < |s[1..]| && s[1..][a] == x && s[1..][b] == y;
    assert s[a + 1] == x && s[b + 1] == y;
  }

  /** Where Insert puts the new element: behind those that are less and in front of all others. */
  lemma {:induction false} InsertPlace<T>(x: T, s: seq<T>, le: (T, T) -> bool) returns (k: nat)
    ensures k <= |s| && Insert(x, s, le) == s[..k] + [x] + s[k..]
    ensures forall i | 0 <= i < k :: !le(x, s[i])
  {
    if s == [] || le(x, s[0]) {
      k := 0;
      assert s[..0] + [x] + s[0..] == [x] + s;
    } else {
      var j := InsertPlace(x, s[1..], le);
      k := j + 1;
      assert s[..k] == [s[0]] + s[1..][..j] && s[k..] == s[1..][j..];
    }
  }

  /** Where the first element of s is inserted at k into the sorted rest, no pair changes its order. */
  lemma InsertKeepsOrder<T>(s: seq<T>, rest: seq<T>, r: seq<T>, k: nat, i: nat, j: nat)
    requires s != [] && k <= |rest| && r == rest[..k] + [s[0]] + rest[k..] && i < j < |r| && j != k
    requires i == k ==> r[j] in s[1..]
    requires i != k ==> StoodBefore(s[1..], r[i], r[j])
    ensures StoodBefore(s, r[i], r[j])
  {
    if i == k {
      var b :| 0 <= b < |s[1..]| && s[1..][b] == r[j];
      assert s[0] == r[i] && s[b + 1] == r[j];
    } else {
      StoodBeforeInRest(s, r[i], r[j]);
    }
  }

  lemma SortedMember<T(!new)>(s: seq<T>, le: (T, T) -> bool, k: nat)
    requires TotalPreorder(le) && k < |SortBy(s, le)|
    ensures SortBy(s, le)[k] in s
  {
    SortFacts(s, le);
    PermutationSize(SortBy(s, le), s);
    assert SortBy(s, le)[k] in SortBy(s, le);
  }

  /** The sort is stable. */
  lemma {:induction false} SortIsStable<T(!new)>(s: seq<T>, le: (T, T) -> bool, i: nat, j: nat)
    requires TotalPreorder(le) && i < j < |SortBy(s, le)|
    requires le(SortBy(s, le)[j], SortBy(s, le)[i])
    ensures StoodBefore(s, SortBy(s, le)[i], SortBy(s, le)[j])
  {
    var rest, r := SortBy(s[1..], le), SortBy(s, le);
    var k := InsertPlace(s[0], rest, le);
    if i == k {
      SortedMember(s[1..], le, j - 1);
      assert r[j] == rest[j - 1];
    } else if j != k {
      var i', j' := if i < k then i else i - 1, if j < k then j else j - 1;
      assert r[i] == rest[i'] && r[j] == rest[j'];
      SortIsStable(s[1..], le, i', j');
    }
    InsertKeepsOrder(s, rest, r, k, i, j);
  }

  lemma PermutationSize<T>(s: seq<T>, t: seq<T>)
    requires IsPermutation(s, t)
    ensures |s| == |t|
    ensures forall x :: x in s <==> x in t
  {
    assert |multiset(s)| == |s| && |multiset(t)| == |t|;
    forall x
      ensures x in s <==> x in t
    {
      assert x in s <==> x in multiset(s);
      assert x in t <==> x in multiset(t);
    }
  }

  lemma CountsInMultiset<T>(s: seq<T>, k: nat)
    requires k < |s|
    ensures multiset(s)[s[k]] == 1 + multiset(s[..k])[s[k]] + multiset(s[k + 1..])[s[k]]
  {
    assert s == s[..k] + [s[k]] + s[k + 1..];
  }

  lemma OnceInDistinct<T>(s: seq<T>, x: T)
    requires Distinct(s)
    ensures multiset(s)[x] <= 1
  {
    if x in multiset(s) {
      assert x in s;
      var k :| 0 <= k < |s| && s[k] == x;
      CountsInMultiset(s, k);
      assert x !in s[..k] && x !in s[k + 1..];
    }
  }

  lemma MultisetOfDistinct<T>(s: seq<T>)
    ensures Distinct(s) <==> forall x | x in multiset(s) :: multiset(s)[x] == 1
  {
    if Distinct(s) {
      forall x | x in multiset(s)
        ensures multiset(s)[x] == 1
      {
        OnceInDistinct(s, x);
      }
    } else {
      var i, j :| 0 <= i < j < |s| && s[i] == s[j];
      CountsInMultiset(s, i);
      assert s[i + 1..][j - i - 1] == s[j];
      assert s[j] in s[i + 1..];
    }
  }

  lemma DistinctConcat<T>(s: seq<T>, t: seq<T>)
    requires Distinct(s) && Distinct(t) && forall x | x in s :: x !in t
    ensures Distinct(s + t)
  {
    forall i, j | 0 <= i < j < |s + t|
      ensures (s + t)[i] != (s + t)[j]
    {
      if i < |s| <= j {
        assert s[i] in s && t[j - |s|] in t;
      }
    }
  }

  lemma DistinctPermutation<T>(s: seq<T>, t: seq<T>)
    requires IsPermutation(s, t) && Distinct(s)
    ensures Distinct(t)
  {
    MultisetOfDistinct(s);
    MultisetOfDistinct(t);
  }

  lemma SameMembersPermutation<T>(s: seq<T>, t: seq<T>)
    requires Distinct(s) && Distinct(t) && forall x :: x in s <==> x in t
    ensures IsPermutation(s, t) && |s| == |t|
  {
    MultisetOfDistinct(s);
    MultisetOfDistinct(t);
    forall x
      ensures multiset(s)[x] == multiset(t)[x]
    {
      assert x in multiset(s) <==> x in s;
      assert x in multiset(t) <==> x in t;
    }
    PermutationSize(s, t);
  }

  /** Two strictly sorted sequences with the same members agree. */
  lemma {:induction false} StrictlySortedUnique<T(!new)>(a: seq<T>, b: seq<T>, lt: (T, T) -> bool, n: nat)
    requires forall x, y :: !(lt(x, y) && lt(y, x))
    requires Sorted(a, lt) && Sorted(b, lt) && Distinct(a) && Distinct(b)
    requires (forall x :: x in a <==> x in b) && |a| == |b| && n <= |a|
    ensures a[..n] == b[..n]
    decreases n
  {
    if n > 0 {
      var k := n - 1;
      StrictlySortedUnique(a, b, lt, k);
      assert forall i | 0 <= i < k :: a[..k][i] == a[i] && b[..k][i] == b[i];
      assert a[k] in a && b[k] in b;
      var j :| 0 <= j < |b| && b[j] == a[k];
      var i :| 0 <= i < |a| && a[i] == b[k];
      assert a[..n] == a[..k] + [a[k]] && b[..n] == b[..k] + [b[k]];
    }
  }

  // ---------------------------------------------------------------- counting

  function Count<T>(s: seq<T>, p: T -> bool): nat {
    if s == [] then 0 else (if p(s[0]) then 1 else 0) + Count(s[1..], p)
  }

  lemma {:induction false} CountConcat<T>(s: seq<T>, t: seq<T>, p: T -> bool)
    ensures Count(s + t, p) == Count(s, p) + Count(t, p)
  {
    if s == [] {
      assert s + t == t;
    } else {
      assert (s + t)[1..] == s[1..] + t;
      CountConcat(s[1..], t, p);
    }
  }

  function Without<T>(t: seq<T>, k: nat): seq<T>
    requires k < |t|
  {
    t[..k] + t[k + 1..]
  }

  /** The first element of s occurs in its permutation t; removing it from both leaves
      permutations. */
  lemma FindFirst<T>(s: seq<T>, t: seq<T>) returns (k: nat)
    requires IsPermutation(s, t) && s != []
    ensures k < |t| && t[k] == s[0] && IsPermutation(s[1..], Without(t, k))
  {
    PermutationSize(s, t);
    assert s[0] in t;
    k :| 0 <= k < |t| && t[k] == s[0];
    WithoutMultiset(t, k);
    assert s == [s[0]] + s[1..];
  }

  lemma WithoutMultiset<T>(t: seq<T>, k: nat)
    requires k < |t|
    ensures multiset(Without(t, k)) == multiset(t) - multiset{t[k]}
  {
    assert t == t[..k] + [t[k]] + t[k + 1..];
  }

  lemma CountWithout<T>(t: seq<T>, k: nat, p: T -> bool)
    requires k < |t|
    ensures Count(t, p) == Count(Without(t, k), p) + if p(t[k]) then 1 else 0
  {
    CountConcat(t[..k], t[k + 1..], p);
    CountConcat(t[..k], t[k..], p);
    assert t[..k] + t[k..] == t && t[k..][1..] == t[k + 1..];
  }

  lemma {:induction false} CountPermutation<T>(s: seq<T>, t: seq<T>, p: T -> bool)
    requires IsPermutation(s, t)
    ensures Count(s, p) == Count(t, p)
  {
    PermutationSize(s, t);
    if s != [] {
      var k := FindFirst(s, t);
      CountPermutation(s[1..], Without(t, k), p);
      CountWithout(t, k, p);
    }
  }

  lemma {:induction false} CountUniform<T>(s: seq<T>, p: T -> bool, all: bool)
    requires forall i | 0 <= i < |s| :: p(s[i]) == all
    ensures Count(s, p) == if all then |s| else 0
  {
    if s != [] {
      CountUniform(s[1..], p, all);
    }
  }

  /** A predicate that holds on exactly one stretch counts its length. */
  lemma CountStretch<T>(s: seq<T>, p: T -> bool, from: nat, to: nat)
    requires from <= to <= |s|
    requires forall i | 0 <= i < |s| :: p(s[i]) <==> from <= i < to
    ensures Count(s, p) == to - from
  {
    CountUniform(s[..from], p, false);
    CountUniform(s[from..to], p, true);
    CountUniform(s[to..], p, false);
    CountParts(s, p, from, to);
  }

  lemma CountParts<T>(s: seq<T>, p: T -> bool, from: nat, to: nat)
    requires from <= to <= |s|
    ensures Count(s, p) == Count(s[..from], p) + Count(s[from..to], p) + Count(s[to..], p)
  {
    CountConcat(s[..from], s[from..to], p);
    CountConcat(s[..from] + s[from..to], s[to..], p);
    assert s[..from] + s[from..to] + s[to..] == s;
  }
}
