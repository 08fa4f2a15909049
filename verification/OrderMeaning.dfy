/** The screening order described point by point: what stands before what, without the queues that produce it. */
module OrderMeaning {
  import opened Sets
  import opened Sorting
  import opened GreedyCoverage
  import opened GreedyMeaning
  import opened StratifiedOrder

  // --- layers

  /** Entry d of queue g is this point. */
  ghost predicate At(queues: seq<seq<Point>>, p: Point, g: nat, d: nat) {
    g < |queues| && d < |queues[g]| && queues[g][d] == p
  }

  lemma {:induction false} HeadAt(queues: seq<seq<Point>>, i: nat) returns (g: nat)
    requires i < |Heads(queues)|
    ensures At(queues, Heads(queues)[i], g, 0)
  {
    if queues[0] != [] && i == 0 {
      g := 0;
    } else {
      g := HeadAt(queues[1..], if queues[0] == [] then i else i - 1);
      g := g + 1;
    }
  }

  lemma {:induction false} HeadsOrdered(queues: seq<seq<Point>>, i: nat, j: nat) returns (g: nat, h: nat)
    requires i < j < |Heads(queues)|
    ensures g < h && At(queues, Heads(queues)[i], g, 0) && At(queues, Heads(queues)[j], h, 0)
  {
    if queues[0] == [] {
      g, h := HeadsOrdered(queues[1..], i, j);
      g, h := g + 1, h + 1;
    } else if i == 0 {
      g := 0;
      h := HeadAt(queues[1..], j - 1);
      h := h + 1;
    } else {
      g, h := HeadsOrdered(queues[1..], i - 1, j - 1);
      g, h := g + 1, h + 1;
    }
  }

  lemma TailAt(queues: seq<seq<Point>>, p: Point, g: nat, d: nat)
    requires At(Tails(queues), p, g, d)
    ensures At(queues, p, g, d + 1)
  {
  }

  /** From this entry on the order is made of the layers of the queues. */
  ghost predicate Layered(queues: seq<seq<Point>>, order: seq<Point>, from: nat)
    decreases |order| - from
  {
    from >= |order| ||
    (&& 0 < |Heads(queues)| <= |order| - from
     && (forall k | 0 <= k < |Heads(queues)| :: order[from + k] == Heads(queues)[k])
     && Layered(Tails(queues), order, from + |Heads(queues)|))
  }

  lemma FirstLayer(order: seq<Point>, from: nat, heads: seq<Point>, rest: seq<Point>)
    requires from <= |order| && order[from..] == heads + rest
    ensures |heads| <= |order| - from && order[from + |heads|..] == rest
    ensures forall k | 0 <= k < |heads| :: order[from + k] == heads[k]
  {
    assert |order[from..]| == |heads| + |rest|;
    assert order[from + |heads|..] == order[from..][|heads|..];
    forall k | 0 <= k < |heads|
      ensures order[from + k] == heads[k]
    {
      assert order[from..][k] == heads[k];
    }
  }

  lemma {:induction false} RoundRobinLayered(queues: seq<seq<Point>>, order: seq<Point>, from: nat)
    requires from <= |order| && order[from..] == RoundRobin(queues)
    ensures Layered(queues, order, from)
    decreases |Flatten(queues)|
  {
    HeadsTails(queues);
    if Heads(queues) != [] {
      FirstLayer(order, from, Heads(queues), RoundRobin(Tails(queues)));
      RoundRobinLayered(Tails(queues), order, from + |Heads(queues)|);
    }
  }

  lemma {:induction false} EntryAt(queues: seq<seq<Point>>, order: seq<Point>, from: nat, i: nat)
    returns (g: nat, d: nat)
    requires Layered(queues, order, from) && from <= i < |order|
    ensures At(queues, order[i], g, d)
    decreases |order| - from
  {
    var n := |Heads(queues)|;
    if i < from + n {
      g := HeadAt(queues, i - from);
      d := 0;
      LayerEntry(queues, order, from, i);
    } else {
      g, d := EntryAt(Tails(queues), order, from + n, i);
      TailAt(queues, order[i], g, d);
      d := d + 1;
    }
  }

  /** p stands further in front of its queue than q, or as far in an earlier queue. */
  ghost predicate InFront(queues: seq<seq<Point>>, p: Point, q: Point) {
    exists g, d, h, e :: At(queues, p, g, d) && At(queues, q, h, e) && (d < e || (d == e && g < h))
  }

  lemma TailInFront(queues: seq<seq<Point>>, p: Point, q: Point)
    requires InFront(Tails(queues), p, q)
    ensures InFront(queues, p, q)
  {
    var g: nat, d: nat, h: nat, e: nat :| At(Tails(queues), p, g, d) && At(Tails(queues), q, h, e)
                                          && (d < e || (d == e && g < h));
    TailAt(queues, p, g, d);
    TailAt(queues, q, h, e);
  }

  lemma HeadInFront(queues: seq<seq<Point>>, i: nat, q: Point, h: nat, e: nat)
    requires i < |Heads(queues)| && At(Tails(queues), q, h, e)
    ensures InFront(queues, Heads(queues)[i], q)
  {
    var g := HeadAt(queues, i);
    TailAt(queues, q, h, e);
  }

  lemma HeadsInFront(queues: seq<seq<Point>>, i: nat, j: nat)
    requires i < j < |Heads(queues)|
    ensures InFront(queues, Heads(queues)[i], Heads(queues)[j])
  {
    var g, h := HeadsOrdered(queues, i, j);
  }

  lemma LayerEntry(queues: seq<seq<Point>>, order: seq<Point>, from: nat, i: nat)
    requires Layered(queues, order, from) && from <= i < |order| && i < from + |Heads(queues)|
    ensures order[i] == Heads(queues)[i - from]
  {
    assert order[from + (i - from)] == Heads(queues)[i - from];
  }

  lemma SameLayerInFront(queues: seq<seq<Point>>, order: seq<Point>, from: nat, i: nat, j: nat)
    requires Layered(queues, order, from) && from <= i < j < |order| && j < from + |Heads(queues)|
    ensures InFront(queues, order[i], order[j])
  {
    LayerEntry(queues, order, from, i);
    LayerEntry(queues, order, from, j);
    HeadsInFront(queues, i - from, j - from);
  }

  lemma FirstLayerInFront(queues: seq<seq<Point>>, order: seq<Point>, next: nat, x: nat, p: Point, j: nat)
    requires x < |Heads(queues)| && p == Heads(queues)[x]
    requires Layered(Tails(queues), order, next) && next <= j < |order|
    ensures InFront(queues, p, order[j])
  {
    var h, e := EntryAt(Tails(queues), order, next, j);
    HeadInFront(queues, x, order[j], h, e);
  }

  lemma {:induction false} LaterLayersInFront(queues: seq<seq<Point>>, order: seq<Point>, from: nat, i: nat, j: nat)
    requires Layered(queues, order, from) && from + |Heads(queues)| <= i < j < |order|
    ensures InFront(queues, order[i], order[j])
    decreases |order| - from, 0
  {
    LayersInFront(Tails(queues), order, from + |Heads(queues)|, i, j);
    TailInFront(queues, order[i], order[j]);
  }

  lemma {:induction false} LayersInFront(queues: seq<seq<Point>>, order: seq<Point>, from: nat, i: nat, j: nat)
    requires Layered(queues, order, from) && from <= i < j < |order|
    ensures InFront(queues, order[i], order[j])
    decreases |order| - from, 1
  {
    var next := from + |Heads(queues)|;
    if j < next {
      SameLayerInFront(queues, order, from, i, j);
    } else if i < next {
      LayerEntry(queues, order, from, i);
      FirstLayerInFront(queues, order, next, i - from, order[i], j);
    } else {
      LaterLayersInFront(queues, order, from, i, j);
    }
  }

  /** What stands earlier in a round robin stood in front. */
  lemma RoundRobinOrdered(queues: seq<seq<Point>>, i: nat, j: nat)
    requires i < j < |RoundRobin(queues)|
    ensures InFront(queues, RoundRobin(queues)[i], RoundRobin(queues)[j])
  {
    RoundRobinLayered(queues, RoundRobin(queues), 0);
    LayersInFront(queues, RoundRobin(queues), 0, i, j);
  }

  // --- ranks

  /** How many points of its group have a smaller identity. */
  function Rank(points: seq<Point>, key: Point -> Tuple, p: Point): nat {
    |set q | q in points && key(q) == key(p) && q.id < p.id|
  }

  lemma {:induction false} ElementsSize<T>(s: seq<T>)
    requires Distinct(s)
    ensures |set x | x in s| == |s|
  {
    if s == [] {
      assert (set x | x in s) == {};
    } else {
      var t, last := s[..|s| - 1], s[|s| - 1];
      ElementsSize(t);
      assert s == t + [last];
      assert (set x | x in s) == (set x | x in t) + {last};
    }
  }

  lemma ByIdIsPreorder()
    ensures TotalPreorder(ById())
  {
  }

  /** A queue ascends in identities. */
  lemma QueueAscends(points: seq<Point>, key: Point -> Tuple, k: Tuple)
    requires DistinctIds(points)
    ensures var queue := Queue(points, key, k);
      forall a, b | 0 <= a < b < |queue| :: queue[a].id < queue[b].id
  {
    ByIdIsPreorder();
    DistinctIdsFacts(points);
    GroupMembers(points, key, k);
    QueueMembers(points, key, k);
    SortFacts(Group(points, key, k), ById());
    var queue := Queue(points, key, k);
    forall a, b | 0 <= a < b < |queue|
      ensures queue[a].id < queue[b].id
    {
      assert ById()(queue[a], queue[b]);
      assert queue[a] in points && queue[b] in points && queue[a] != queue[b];
    }
  }

  lemma SmallerInQueue(points: seq<Point>, key: Point -> Tuple, k: Tuple, d: nat, q: Point)
    requires DistinctIds(points) && d < |Queue(points, key, k)|
    ensures var queue := Queue(points, key, k);
      q in queue[..d] <==> q in points && key(q) == key(queue[d]) && q.id < queue[d].id
  {
    var queue := Queue(points, key, k);
    QueueMembers(points, key, k);
    QueueAscends(points, key, k);
    assert queue[d] in queue;
    if q in queue {
      var a :| 0 <= a < |queue| && queue[a] == q;
      assert a < d ==> queue[..d][a] == q;
    }
  }

  /** An entry's place in its queue is its rank. */
  lemma QueueRank(points: seq<Point>, key: Point -> Tuple, k: Tuple, d: nat)
    requires DistinctIds(points) && d < |Queue(points, key, k)|
    ensures Rank(points, key, Queue(points, key, k)[d]) == d
  {
    var queue := Queue(points, key, k);
    var p := queue[d];
    forall q
      ensures q in queue[..d] <==> q in points && key(q) == key(p) && q.id < p.id
    {
      SmallerInQueue(points, key, k, d, q);
    }
    assert (set q | q in points && key(q) == key(p) && q.id < p.id) == set q | q in queue[..d];
    QueueAscends(points, key, k);
    ElementsSize(queue[..d]);
  }

  /** One key stands before the other in the list. */
  ghost predicate ListedBefore(keys: seq<Tuple>, a: Tuple, b: Tuple) {
    exists i, j :: 0 <= i < j < |keys| && keys[i] == a && keys[j] == b
  }

  /** The strata are listed by rank, and within a rank in the order of their keys. */
  lemma LayersOrder(points: seq<Point>, key: Point -> Tuple, keys: seq<Tuple>, i: nat, j: nat)
    requires DistinctIds(points) && i < j < |RoundRobin(Queues(points, key, keys))|
    ensures var r := RoundRobin(Queues(points, key, keys));
      || Rank(points, key, r[i]) < Rank(points, key, r[j])
      || (Rank(points, key, r[i]) == Rank(points, key, r[j]) && ListedBefore(keys, key(r[i]), key(r[j])))
  {
    var queues := Queues(points, key, keys);
    RoundRobinOrdered(queues, i, j);
    InFrontByRank(points, key, keys, RoundRobin(queues)[i], RoundRobin(queues)[j]);
  }

  lemma InFrontByRank(points: seq<Point>, key: Point -> Tuple, keys: seq<Tuple>, p: Point, q: Point)
    requires DistinctIds(points) && InFront(Queues(points, key, keys), p, q)
    ensures Rank(points, key, p) < Rank(points, key, q)
         || (Rank(points, key, p) == Rank(points, key, q) && ListedBefore(keys, key(p), key(q)))
  {
    var queues := Queues(points, key, keys);
    var g: nat, d: nat, h: nat, e: nat :| At(queues, p, g, d) && At(queues, q, h, e)
                                          && (d < e || (d == e && g < h));
    EntryRank(points, key, keys, p, g, d);
    EntryRank(points, key, keys, q, h, e);
  }

  lemma EntryRank(points: seq<Point>, key: Point -> Tuple, keys: seq<Tuple>, p: Point, g: nat, d: nat)
    requires DistinctIds(points) && At(Queues(points, key, keys), p, g, d)
    ensures g < |keys| && key(p) == keys[g] && Rank(points, key, p) == d
  {
    QueueRank(points, key, keys[g], d);
    QueueMembers(points, key, keys[g]);
    assert Queues(points, key, keys)[g][d] in Queues(points, key, keys)[g];
  }

  // --- one family on the factor path

  /** How many points of the factor stratum have a smaller identity. */
  function FactorRank(points: seq<Point>, p: Point): nat {
    |set q | q in points && q.factorStratum == p.factorStratum && q.id < p.id|
  }

  ghost predicate FactorBefore(points: seq<Point>, strata: seq<Tuple>, p: Point, q: Point) {
    || FactorRank(points, p) < FactorRank(points, q)
    || (FactorRank(points, p) == FactorRank(points, q) && ListedBefore(strata, p.factorStratum, q.factorStratum))
  }

  lemma KeysAreValues(points: seq<Point>, key: Point -> Tuple, values: set<Tuple>)
    requires forall v :: v in values <==> exists p :: p in points && key(p) == v
    ensures KeySet(points, key) == values
  {
    forall v
      ensures v in KeySet(points, key) <==> v in values
    {
      KeySetMembers(points, key, v);
    }
  }

  lemma FactorRankIs(points: seq<Point>, p: Point)
    ensures Rank(points, FactorStratumOf(), p) == FactorRank(points, p)
  {
    assert (set q | q in points && FactorStratumOf()(q) == FactorStratumOf()(p) && q.id < p.id)
        == set q | q in points && q.factorStratum == p.factorStratum && q.id < p.id;
  }

  /** A family whose backend is the factor-streamed one: the points by their rank in their factor stratum, and
      within a rank in the order of the strata, which always takes the preferred one of those left. */
  lemma FactorOrderIs(points: seq<Point>, full: seq<Point>) returns (strata: seq<Tuple>)
    requires points != [] && points[0].family != [] && points[0].family[0] == FACTOR_STREAMED
    requires DistinctIds(points) && IsFamilyOrder(points, full)
    ensures IsPermutation(full, points)
    ensures Enumerates(strata, set p | p in points :: p.factorStratum)
    ensures forall k, j | 0 <= k < j < |strata| :: Preferred(strata[..k], strata[k], strata[j])
    ensures forall i, j | 0 <= i < j < |full| :: FactorBefore(points, strata, full[i], full[j])
  {
    strata :| FactorOrderBy(points, strata, full);
    FamilyOrderPermutes(points, full);
    KeysAreValues(points, FactorStratumOf(), set p | p in points :: p.factorStratum);
    FactorOrderMeaning(strata, KeySet(points, FactorStratumOf()));
    forall i, j | 0 <= i < j < |full|
      ensures FactorBefore(points, strata, full[i], full[j])
    {
      LayersOrder(points, FactorStratumOf(), strata, i, j);
      FactorRankIs(points, full[i]);
      FactorRankIs(points, full[j]);
    }
  }

  // --- one family on the other path

  function StratumRank(points: seq<Point>, p: Point): nat {
    |set q | q in points && q.stratum == p.stratum && q.id < p.id|
  }

  /** By rank in the stratum, and within a rank by stratum. */
  ghost predicate TraversedBefore(points: seq<Point>, p: Point, q: Point) {
    || StratumRank(points, p) < StratumRank(points, q)
    || (StratumRank(points, p) == StratumRank(points, q) && TupleBefore(p.stratum, q.stratum))
  }

  /** The point of smallest identity with its strategy, family or launch mapping. */
  predicate LeadsStrategy(points: seq<Point>, p: Point) {
    p in points && forall q | q in points && q.strategy == p.strategy :: p.id <= q.id
  }

  predicate LeadsFamily(points: seq<Point>, p: Point) {
    p in points && forall q | q in points && q.family == p.family :: p.id <= q.id
  }

  predicate LeadsLaunch(points: seq<Point>, p: Point) {
    p in points && forall q | q in points && q.launch == p.launch :: p.id <= q.id
  }

  /** First the leaders of the strategies in strategy order, then those of the families, then those of the
      launch mappings, then all other points by their rank in their stratum and the stratum. */
  ghost predicate MappedBefore(points: seq<Point>, strategies: seq<Tuple>, p: Point, q: Point) {
    if LeadsStrategy(points, p) || LeadsStrategy(points, q) then
      LeadsStrategy(points, p) && (LeadsStrategy(points, q) ==> ListedBefore(strategies, p.strategy, q.strategy))
    else if LeadsFamily(points, p) || LeadsFamily(points, q) then
      LeadsFamily(points, p) && (LeadsFamily(points, q) ==> TupleBefore(p.family, q.family))
    else if LeadsLaunch(points, p) || LeadsLaunch(points, q) then
      LeadsLaunch(points, p) && (LeadsLaunch(points, q) ==> TupleBefore(p.launch, q.launch))
    else TraversedBefore(points, p, q)
  }

  /** Some occurrence of p precedes every occurrence of q. */
  ghost predicate OccursFirst(s: seq<Point>, p: Point, q: Point) {
    exists a :: 0 <= a < |s| && s[a] == p && q !in s[..a + 1]
  }

  lemma {:induction false} UniqueOrder(s: seq<Point>, i: nat, j: nat)
    requires IdsIdentify(s) && i < j < |Unique(s)|
    ensures OccursFirst(s, Unique(s)[i], Unique(s)[j])
  {
    var t, u := s[..|s| - 1], Unique(s);
    assert s == t + [s[|s| - 1]];
    UniqueFacts(t);
    UniqueFacts(s);
    var rest := Unique(t);
    assert u[i] == rest[i] && u[i] in t;
    if j < |rest| {
      UniqueOrder(t, i, j);
      var a :| 0 <= a < |t| && t[a] == u[i] && u[j] !in t[..a + 1];
      assert s[a] == u[i] && s[..a + 1] == t[..a + 1];
    } else {
      var a :| 0 <= a < |t| && t[a] == u[i];
      assert u[j] !in t && s[..a + 1] == t[..a + 1];
      assert s[a] == u[i];
    }
  }

  ghost predicate Leads(points: seq<Point>, key: Point -> Tuple, p: Point) {
    p in points && forall q | q in points && key(q) == key(p) :: p.id <= q.id
  }

  lemma {:induction false} RepresentativeLeads(points: seq<Point>, key: Point -> Tuple, keys: seq<Tuple>, i: nat)
    requires DistinctIds(points) && (forall k | k in keys :: k in KeySet(points, key)) && i < |keys|
    ensures Leads(points, key, Representatives(points, key, keys)[i])
  {
    if i > 0 {
      RepresentativeLeads(points, key, keys[1..], i - 1);
    } else {
      var queue := Queue(points, key, keys[0]);
      QueueMembers(points, key, keys[0]);
      QueueAscends(points, key, keys[0]);
      var p := Representatives(points, key, keys)[0];
      assert p == queue[0];
      forall q | q in points && key(q) == key(p)
        ensures p.id <= q.id
      {
        assert q in queue;
      }
    }
  }

  /** The representatives are the leaders, at the places of their keys. */
  lemma LeaderAt(points: seq<Point>, key: Point -> Tuple, keys: seq<Tuple>, p: Point) returns (i: nat)
    requires DistinctIds(points) && Partition(keys, {}, KeySet(points, key)) && Leads(points, key, p)
    ensures i < |keys| && Representatives(points, key, keys)[i] == p
  {
    KeySetMembers(points, key, key(p));
    i :| 0 <= i < |keys| && keys[i] == key(p);
    RepresentativeLeads(points, key, keys, i);
    DistinctIdsFacts(points);
  }

  lemma FirstInParts(front: seq<Point>, rest: seq<Point>, p: Point, q: Point)
    requires OccursFirst(front + rest, p, q)
    ensures OccursFirst(front, p, q) || (q !in front && OccursFirst(rest, p, q))
  {
    var s := front + rest;
    var x :| 0 <= x < |s| && s[x] == p && q !in s[..x + 1];
    if x < |front| {
      assert s[..x + 1] == front[..x + 1];
    } else {
      var y := x - |front|;
      assert s[..x + 1] == front + rest[..y + 1];
      assert rest[y] == p && q !in rest[..y + 1];
    }
  }

  /** What the leaders in front decide. */
  lemma LeadersFirst(points: seq<Point>, key: Point -> Tuple, keys: seq<Tuple>, rest: seq<Point>, p: Point, q: Point)
    requires DistinctIds(points) && Partition(keys, {}, KeySet(points, key))
    requires OccursFirst(Representatives(points, key, keys) + rest, p, q)
    ensures Leads(points, key, p) || Leads(points, key, q) ==>
      Leads(points, key, p) && (Leads(points, key, q) ==> ListedBefore(keys, key(p), key(q)))
    ensures !Leads(points, key, p) && !Leads(points, key, q) ==> OccursFirst(rest, p, q)
  {
    FirstInParts(Representatives(points, key, keys), rest, p, q);
    if OccursFirst(Representatives(points, key, keys), p, q) {
      FirstAmongLeaders(points, key, keys, p, q);
    } else if Leads(points, key, q) {
      var y := LeaderAt(points, key, keys, q);
    }
  }

  lemma FirstAmongLeaders(points: seq<Point>, key: Point -> Tuple, keys: seq<Tuple>, p: Point, q: Point)
    requires DistinctIds(points) && Partition(keys, {}, KeySet(points, key))
    requires OccursFirst(Representatives(points, key, keys), p, q)
    ensures Leads(points, key, p) && (Leads(points, key, q) ==> ListedBefore(keys, key(p), key(q)))
  {
    var leaders := Representatives(points, key, keys);
    var x :| 0 <= x < |leaders| && leaders[x] == p && q !in leaders[..x + 1];
    RepresentativeLeads(points, key, keys, x);
    if Leads(points, key, q) {
      var y := LeaderAt(points, key, keys, q);
      UpToIndex(leaders, x);
      assert x < y && keys[x] == key(p) && keys[y] == key(q);
    }
  }

  lemma UpToIndex(s: seq<Point>, x: nat)
    requires x < |s|
    ensures forall y | 0 <= y <= x :: s[y] in s[..x + 1]
  {
    forall y | 0 <= y <= x
      ensures s[y] in s[..x + 1]
    {
      assert s[..x + 1][y] == s[y];
    }
  }

  lemma StratumRankIs(points: seq<Point>, p: Point)
    ensures Rank(points, StratumOf(), p) == StratumRank(points, p)
  {
    assert (set q | q in points && StratumOf()(q) == StratumOf()(p) && q.id < p.id)
        == set q | q in points && q.stratum == p.stratum && q.id < p.id;
  }

  /** The strata traversal. */
  lemma TraversalOrder(points: seq<Point>, strata: seq<Tuple>, p: Point, q: Point)
    requires DistinctIds(points) && IsSortedOrder(strata, KeySet(points, StratumOf())) && q in points
    requires OccursFirst(RoundRobin(Queues(points, StratumOf(), strata)), p, q)
    ensures TraversedBefore(points, p, q)
  {
    var r := RoundRobin(Queues(points, StratumOf(), strata));
    DistinctIdsFacts(points);
    QueuesPermute(points, StratumOf(), strata);
    PermutationSize(r, points);
    var x :| 0 <= x < |r| && r[x] == p && q !in r[..x + 1];
    var y :| 0 <= y < |r| && r[y] == q;
    UpToIndex(r, x);
    LayersOrder(points, StratumOf(), strata, x, y);
    StratumRankIs(points, p);
    StratumRankIs(points, q);
    SortedOrderMeaning(strata, KeySet(points, StratumOf()));
  }

  lemma LeadsMeans(points: seq<Point>, p: Point)
    ensures Leads(points, StrategyOf(), p) == LeadsStrategy(points, p)
    ensures Leads(points, FamilyOf(), p) == LeadsFamily(points, p)
    ensures Leads(points, LaunchOf(), p) == LeadsLaunch(points, p)
  {
  }

  lemma StrategyStage(points: seq<Point>, keys: seq<Tuple>, rest: seq<Point>, p: Point, q: Point)
    requires DistinctIds(points) && Partition(keys, {}, KeySet(points, StrategyOf()))
    requires OccursFirst(Representatives(points, StrategyOf(), keys) + rest, p, q)
    ensures LeadsStrategy(points, p) || LeadsStrategy(points, q) ==>
      LeadsStrategy(points, p) && (LeadsStrategy(points, q) ==> ListedBefore(keys, p.strategy, q.strategy))
    ensures !LeadsStrategy(points, p) && !LeadsStrategy(points, q) ==> OccursFirst(rest, p, q)
  {
    LeadersFirst(points, StrategyOf(), keys, rest, p, q);
    LeadsMeans(points, p);
    LeadsMeans(points, q);
  }

  lemma FamilyStage(points: seq<Point>, keys: seq<Tuple>, rest: seq<Point>, p: Point, q: Point)
    requires DistinctIds(points) && IsSortedOrder(keys, KeySet(points, FamilyOf()))
    requires OccursFirst(Representatives(points, FamilyOf(), keys) + rest, p, q)
    ensures LeadsFamily(points, p) || LeadsFamily(points, q) ==>
      LeadsFamily(points, p) && (LeadsFamily(points, q) ==> TupleBefore(p.family, q.family))
    ensures !LeadsFamily(points, p) && !LeadsFamily(points, q) ==> OccursFirst(rest, p, q)
  {
    LeadersFirst(points, FamilyOf(), keys, rest, p, q);
    LeadsMeans(points, p);
    LeadsMeans(points, q);
    SortedOrderMeaning(keys, KeySet(points, FamilyOf()));
  }

  lemma LaunchStage(points: seq<Point>, keys: seq<Tuple>, rest: seq<Point>, p: Point, q: Point)
    requires DistinctIds(points) && IsSortedOrder(keys, KeySet(points, LaunchOf()))
    requires OccursFirst(Representatives(points, LaunchOf(), keys) + rest, p, q)
    ensures LeadsLaunch(points, p) || LeadsLaunch(points, q) ==>
      LeadsLaunch(points, p) && (LeadsLaunch(points, q) ==> TupleBefore(p.launch, q.launch))
    ensures !LeadsLaunch(points, p) && !LeadsLaunch(points, q) ==> OccursFirst(rest, p, q)
  {
    LeadersFirst(points, LaunchOf(), keys, rest, p, q);
    LeadsMeans(points, p);
    LeadsMeans(points, q);
    SortedOrderMeaning(keys, KeySet(points, LaunchOf()));
  }

  lemma Stages(points: seq<Point>, k: Keys, traversal: seq<Point>, p: Point, q: Point)
    requires DistinctIds(points) && KeysOf(points, k)
    requires OccursFirst(Representatives(points, StrategyOf(), k.strategies)
                         + (Representatives(points, FamilyOf(), k.families)
                            + (Representatives(points, LaunchOf(), k.launches) + traversal)), p, q)
    requires OccursFirst(traversal, p, q) ==> TraversedBefore(points, p, q)
    ensures MappedBefore(points, k.strategies, p, q)
  {
    var l := Representatives(points, LaunchOf(), k.launches) + traversal;
    var f := Representatives(points, FamilyOf(), k.families) + l;
    StrategyStage(points, k.strategies, f, p, q);
    if !LeadsStrategy(points, p) && !LeadsStrategy(points, q) {
      FamilyStage(points, k.families, l, p, q);
      if !LeadsFamily(points, p) && !LeadsFamily(points, q) {
        LaunchStage(points, k.launches, traversal, p, q);
      }
    }
  }

  lemma Reassociate<T>(a: seq<T>, b: seq<T>, c: seq<T>)
    ensures a + b + c == a + (b + c)
  {
  }

  lemma MappedPair(points: seq<Point>, k: Keys, p: Point, q: Point)
    requires DistinctIds(points) && KeysOf(points, k) && q in points && OccursFirst(Listed(points, k), p, q)
    ensures MappedBefore(points, k.strategies, p, q)
  {
    var r := RoundRobin(Queues(points, StratumOf(), k.strata));
    Reassociate(Representatives(points, FamilyOf(), k.families), Representatives(points, LaunchOf(), k.launches), r);
    if OccursFirst(r, p, q) {
      TraversalOrder(points, k.strata, p, q);
    }
    Stages(points, k, r, p, q);
  }

  /** Any other family: the leaders of the strategies, families and launch mappings in this order, then the
      traversal of the strata by rank. */
  lemma MappedOrderIs(points: seq<Point>, full: seq<Point>) returns (strategies: seq<Tuple>)
    requires points == [] || points[0].family == [] || points[0].family[0] != FACTOR_STREAMED
    requires DistinctIds(points) && IsFamilyOrder(points, full)
    ensures IsPermutation(full, points)
    ensures IsStrategyOrder(strategies, set p | p in points :: p.strategy, [0, 0, 1, 0, 0, 0])
    ensures forall i, j | 0 <= i < j < |full| :: MappedBefore(points, strategies, full[i], full[j])
  {
    var k :| MappedOrderBy(points, k, full);
    strategies := k.strategies;
    FamilyOrderPermutes(points, full);
    PermutationSize(full, points);
    KeysAreValues(points, StrategyOf(), set p | p in points :: p.strategy);
    DistinctIdsFacts(points);
    ListedMembers(points, k);
    forall i, j | 0 <= i < j < |full|
      ensures MappedBefore(points, strategies, full[i], full[j])
    {
      UniqueOrder(Listed(points, k), i, j);
      assert full[j] in full;
      MappedPair(points, k, full[i], full[j]);
    }
  }

  // --- several families

  /** A library with several families: a point stands before another if it stands further in front of the own
      order of its family, or as far in that of a family of smaller key. */
  lemma FamiliesInterleave(points: seq<Point>, full: seq<Point>, i: nat, j: nat)
    returns (a: seq<Point>, d: nat, b: seq<Point>, e: nat)
    requires DistinctIds(points) && IsStratifiedOrder(points, full) && i < j < |full|
    requires exists p, q | p in points && q in points :: p.family != q.family
    ensures IsFamilyOrder(Group(points, FamilyOf(), full[i].family), a) && d < |a| && a[d] == full[i]
    ensures IsFamilyOrder(Group(points, FamilyOf(), full[j].family), b) && e < |b| && b[e] == full[j]
    ensures d < e || (d == e && TupleBefore(full[i].family, full[j].family))
  {
    SeveralFamilies(points);
    var keys, queues :| FamiliesOrderBy(points, keys, queues, full);
    RoundRobinOrdered(queues, i, j);
    var g: nat, d', h: nat, e' :| At(queues, full[i], g, d') && At(queues, full[j], h, e')
                                  && (d' < e' || (d' == e' && g < h));
    a, d, b, e := queues[g], d', queues[h], e';
    assert OrdersFamily(points)(keys[g], queues[g]) && OrdersFamily(points)(keys[h], queues[h]);
    FamilyQueueMembers(points, keys[g], queues[g]);
    FamilyQueueMembers(points, keys[h], queues[h]);
    assert full[i] in queues[g] && full[j] in queues[h];
    SortedOrderMeaning(keys, KeySet(points, FamilyOf()));
  }

  lemma SeveralFamilies(points: seq<Point>)
    requires exists p, q | p in points && q in points :: p.family != q.family
    ensures |KeySet(points, FamilyOf())| > 1
  {
    var p, q :| p in points && q in points && p.family != q.family;
    KeySetMembers(points, FamilyOf(), p.family);
    KeySetMembers(points, FamilyOf(), q.family);
    assert FamilyOf()(p) == p.family && FamilyOf()(q) == q.family;
    SubsetSize({p.family, q.family}, KeySet(points, FamilyOf()));
  }

  /** A library of one family is ordered as that family. */
  lemma OneFamilyOrder(points: seq<Point>, full: seq<Point>)
    requires IsStratifiedOrder(points, full)
    requires forall p, q | p in points && q in points :: p.family == q.family
    ensures IsFamilyOrder(points, full)
  {
    forall f | f in KeySet(points, FamilyOf())
      ensures points != [] && f == points[0].family
    {
      KeySetMembers(points, FamilyOf(), f);
    }
    if points != [] {
      assert KeySet(points, FamilyOf()) <= {points[0].family};
      SubsetSize(KeySet(points, FamilyOf()), {points[0].family});
    }
  }
}
