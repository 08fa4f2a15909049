/** The screening order of a library's design points: round-robin over strata, with one
    representative of every strategy, family and launch mapping in front. */
module StratifiedOrder {
  import opened Sets
  import opened Sorting
  import opened GreedyCoverage

  /** A design point with the keys the original derives from it. Identities and names are coded
      as integers in the order of the original's strings. */
  datatype Point = Point(id: int, family: Tuple, factorStratum: Tuple, stratum: Tuple, strategy: Tuple, launch: Tuple)

  /** The code of the backend name "factor-streamed"; the backend is a family's first axis. */
  const FACTOR_STREAMED: int := 1

  ghost predicate DistinctIds(points: seq<Point>) {
    forall i, j | 0 <= i < j < |points| :: points[i].id != points[j].id
  }

  /** Candidate identities are injective. */
  ghost predicate IdsIdentify(points: seq<Point>) {
    forall p, q | p in points && q in points && p.id == q.id :: p == q
  }

  lemma DistinctIdsFacts(points: seq<Point>)
    requires DistinctIds(points)
    ensures Distinct(points) && IdsIdentify(points)
  {
  }

  // ------------------------------------------------------------ grouping

  function Group(points: seq<Point>, key: Point -> Tuple, k: Tuple): seq<Point> {
    if points == [] then []
    else
      var rest := Group(points[..|points| - 1], key, k);
      var p := points[|points| - 1];
      if key(p) == k then rest + [p] else rest
  }

  function KeySet(points: seq<Point>, key: Point -> Tuple): set<Tuple> {
    if points == [] then {} else KeySet(points[..|points| - 1], key) + {key(points[|points| - 1])}
  }

  lemma {:induction false} GroupMembers(points: seq<Point>, key: Point -> Tuple, k: Tuple)
    ensures forall p :: p in Group(points, key, k) <==> p in points && key(p) == k
    ensures Distinct(points) ==> Distinct(Group(points, key, k))
    ensures |Group(points, key, k)| <= |points|
  {
    if points != [] {
      GroupMembers(points[..|points| - 1], key, k);
      assert points == points[..|points| - 1] + [points[|points| - 1]];
    }
  }

  lemma GroupOfDistinct(points: seq<Point>, key: Point -> Tuple, k: Tuple)
    requires DistinctIds(points)
    ensures DistinctIds(Group(points, key, k))
  {
    DistinctIdsFacts(points);
    GroupMembers(points, key, k);
    var g := Group(points, key, k);
    forall i, j | 0 <= i < j < |g|
      ensures g[i].id != g[j].id
    {
      assert g[i] in g && g[j] in g && g[i] != g[j];
    }
  }

  /** The setdefault/append loop that fills a dictionary of lists. */
  method GroupBy(points: seq<Point>, key: Point -> Tuple) returns (groups: map<Tuple, seq<Point>>)
    ensures groups.Keys == KeySet(points, key)
    ensures forall k | k in groups :: groups[k] == Group(points, key, k)
  {
    groups := map[];
    for i := 0 to |points|
      invariant forall k :: k in groups <==> k in KeySet(points[..i], key)
      invariant forall k | k in groups :: groups[k] == Group(points[..i], key, k)
    {
      var p := points[i];
      assert points[..i + 1] == points[..i] + [p];
      assert points[..i + 1][..i] == points[..i];
      GroupEmpty(points[..i], key, key(p));
      var before := if key(p) in groups then groups[key(p)] else [];
      groups := groups[key(p) := before + [p]];
    }
    assert points[..|points|] == points;
  }

  lemma {:induction false} KeySetMembers(points: seq<Point>, key: Point -> Tuple, k: Tuple)
    ensures k in KeySet(points, key) <==> exists p :: p in points && key(p) == k
  {
    if points != [] {
      var t := points[..|points| - 1];
      KeySetMembers(t, key, k);
      assert points == t + [points[|points| - 1]];
      if exists p :: p in t && key(p) == k {
        var p :| p in t && key(p) == k;
        assert p in points;
      }
      if key(points[|points| - 1]) == k {
        assert points[|points| - 1] in points;
      }
    }
  }

  lemma GroupEmpty(points: seq<Point>, key: Point -> Tuple, k: Tuple)
    ensures k !in KeySet(points, key) ==> Group(points, key, k) == []
  {
  }

  // -------------------------------------------------------- round robin

  function Heads(queues: seq<seq<Point>>): seq<Point> {
    if queues == [] then []
    else (if queues[0] == [] then [] else [queues[0][0]]) + Heads(queues[1..])
  }

  function Tails(queues: seq<seq<Point>>): (r: seq<seq<Point>>)
    ensures |r| == |queues|
    ensures forall i | 0 <= i < |queues| :: r[i] == if queues[i] == [] then [] else queues[i][1..]
  {
    if queues == [] then []
    else [if queues[0] == [] then [] else queues[0][1..]] + Tails(queues[1..])
  }

  function Flatten(queues: seq<seq<Point>>): seq<Point> {
    if queues == [] then [] else queues[0] + Flatten(queues[1..])
  }

  lemma {:induction false} HeadsTails(queues: seq<seq<Point>>)
    ensures |Heads(queues)| + |Flatten(Tails(queues))| == |Flatten(queues)|
    ensures Heads(queues) == [] ==> Flatten(queues) == []
  {
    if queues != [] {
      HeadsTails(queues[1..]);
      assert Tails(queues)[1..] == Tails(queues[1..]);
    }
  }

  lemma {:induction false} HeadsTailsContents(queues: seq<seq<Point>>)
    ensures multiset(Flatten(queues)) == multiset(Heads(queues)) + multiset(Flatten(Tails(queues)))
  {
    if queues != [] {
      var q := queues[0];
      HeadsTailsContents(queues[1..]);
      assert Tails(queues)[1..] == Tails(queues[1..]);
      assert q != [] ==> q == [q[0]] + q[1..];
      assert multiset(Flatten(queues)) == multiset(q) + multiset(Flatten(queues[1..]));
    }
  }

  /** zip_longest over the queues, layer by layer, without the padding. */
  function RoundRobin(queues: seq<seq<Point>>): seq<Point>
    decreases |Flatten(queues)|
  {
    HeadsTails(queues);
    if Heads(queues) == [] then [] else Heads(queues) + RoundRobin(Tails(queues))
  }

  lemma {:induction false} RoundRobinPermutes(queues: seq<seq<Point>>)
    ensures IsPermutation(RoundRobin(queues), Flatten(queues))
    decreases |Flatten(queues)|
  {
    HeadsTails(queues);
    HeadsTailsContents(queues);
    if Heads(queues) != [] {
      RoundRobinPermutes(Tails(queues));
    }
  }

  lemma {:induction false} HeadsMembers(queues: seq<seq<Point>>, i: nat)
    requires i < |queues| && queues[i] != []
    ensures queues[i][0] in Heads(queues)
    decreases i
  {
    if i > 0 {
      HeadsMembers(queues[1..], i - 1);
    }
  }

  function Depth(queue: seq<Point>, d: nat): nat {
    if d <= |queue| then d else |queue|
  }

  /** The prefix contains the first d entries of every queue. */
  ghost predicate Reaches(queues: seq<seq<Point>>, prefix: seq<Point>, d: nat) {
    forall i, k | 0 <= i < |queues| && 0 <= k < Depth(queues[i], d) :: queues[i][k] in prefix
  }

  ghost predicate WithinDepth(queues: seq<seq<Point>>, p: Point, d: nat) {
    exists i, k :: 0 <= i < |queues| && 0 <= k < Depth(queues[i], d) && queues[i][k] == p
  }

  /** The prefix contains nothing beyond the first d entries of the queues. */
  ghost predicate Confined(queues: seq<seq<Point>>, prefix: seq<Point>, d: nat) {
    forall p | p in prefix :: WithinDepth(queues, p, d)
  }

  lemma ReachesDeeper(queues: seq<seq<Point>>, rest: seq<Point>, c: nat)
    requires Reaches(Tails(queues), rest, c)
    ensures Reaches(queues, Heads(queues) + rest, c + 1)
  {
    var tails := Tails(queues);
    forall i, k | 0 <= i < |queues| && 0 <= k < Depth(queues[i], c + 1)
      ensures queues[i][k] in Heads(queues) + rest
    {
      if k == 0 {
        HeadsMembers(queues, i);
      } else {
        assert tails[i][k - 1] == queues[i][k];
        assert tails[i][k - 1] in rest;
      }
    }
  }

  lemma HeadsConfined(queues: seq<seq<Point>>, d: nat)
    requires d > 0
    ensures Confined(queues, Heads(queues), d)
  {
  }

  lemma ConfinedDeeper(queues: seq<seq<Point>>, rest: seq<Point>, d: nat)
    requires Confined(Tails(queues), rest, d)
    ensures Confined(queues, Heads(queues) + rest, d + 1)
  {
    HeadsConfined(queues, d + 1);
    var tails := Tails(queues);
    forall p | p in rest
      ensures WithinDepth(queues, p, d + 1)
    {
      assert WithinDepth(tails, p, d);
      var i, k :| 0 <= i < |tails| && 0 <= k < Depth(tails[i], d) && tails[i][k] == p;
      assert queues[i][k + 1] == p;
    }
  }

  /** What a fair prefix is: the same depth d reached in every queue that is long enough,
      and nowhere anything beyond the next entry. */
  ghost predicate Fair(queues: seq<seq<Point>>, prefix: seq<Point>, d: nat) {
    Reaches(queues, prefix, d) && Confined(queues, prefix, d + 1)
  }

  lemma FairFirstLayer(queues: seq<seq<Point>>, prefix: seq<Point>)
    requires prefix <= Heads(queues)
    ensures Fair(queues, prefix, 0)
  {
    HeadsConfined(queues, 1);
    forall p | p in prefix
      ensures p in Heads(queues)
    {
    }
  }

  lemma FairNextLayer(queues: seq<seq<Point>>, rest: seq<Point>, d: nat)
    requires Fair(Tails(queues), rest, d)
    ensures Fair(queues, Heads(queues) + rest, d + 1)
  {
    ReachesDeeper(queues, rest, d);
    ConfinedDeeper(queues, rest, d + 1);
  }

  lemma RoundRobinPrefix(queues: seq<seq<Point>>, taken: nat)
    requires taken <= |RoundRobin(queues)|
    ensures taken <= |Heads(queues)| ==> RoundRobin(queues)[..taken] <= Heads(queues)
    ensures taken > |Heads(queues)| ==>
      && Heads(queues) != []
      && taken - |Heads(queues)| <= |RoundRobin(Tails(queues))|
      && RoundRobin(queues)[..taken] == Heads(queues) + RoundRobin(Tails(queues))[..taken - |Heads(queues)|]
  {
  }

  /** Every prefix of the round robin is fair. */
  lemma {:induction false} RoundRobinIsFair(queues: seq<seq<Point>>, taken: nat) returns (d: nat)
    requires taken <= |RoundRobin(queues)|
    ensures Fair(queues, RoundRobin(queues)[..taken], d)
    decreases |Flatten(queues)|
  {
    HeadsTails(queues);
    RoundRobinPrefix(queues, taken);
    if taken <= |Heads(queues)| {
      d := 0;
      FairFirstLayer(queues, RoundRobin(queues)[..taken]);
    } else {
      var left := taken - |Heads(queues)|;
      d := RoundRobinIsFair(Tails(queues), left);
      FairNextLayer(queues, RoundRobin(Tails(queues))[..left], d);
      d := d + 1;
    }
  }

  // ---------------------------------------------------- queues of one family

  function ById(): (Point, Point) -> bool {
    (p: Point, q: Point) => p.id <= q.id
  }

  /** One stratum, sorted by identity. */
  function Queue(points: seq<Point>, key: Point -> Tuple, k: Tuple): seq<Point> {
    SortBy(Group(points, key, k), ById())
  }

  function Queues(points: seq<Point>, key: Point -> Tuple, keys: seq<Tuple>): (r: seq<seq<Point>>)
    ensures |r| == |keys| && forall i | 0 <= i < |keys| :: r[i] == Queue(points, key, keys[i])
  {
    seq(|keys|, i requires 0 <= i < |keys| => Queue(points, key, keys[i]))
  }

  lemma QueueMembers(points: seq<Point>, key: Point -> Tuple, k: Tuple)
    ensures forall p :: p in Queue(points, key, k) <==> p in points && key(p) == k
    ensures Distinct(points) ==> Distinct(Queue(points, key, k))
  {
    GroupMembers(points, key, k);
    SortFacts(Group(points, key, k), ById());
    PermutationSize(Queue(points, key, k), Group(points, key, k));
    if Distinct(points) {
      DistinctPermutation(Group(points, key, k), Queue(points, key, k));
    }
  }

  lemma {:induction false} FlattenMembers(queues: seq<seq<Point>>, p: Point)
    ensures p in Flatten(queues) <==> exists i :: 0 <= i < |queues| && p in queues[i]
  {
    if queues != [] {
      FlattenMembers(queues[1..], p);
      if exists i :: 0 <= i < |queues| && p in queues[i] {
        var i :| 0 <= i < |queues| && p in queues[i];
        assert i > 0 ==> queues[1..][i - 1] == queues[i];
      }
    }
  }

  ghost predicate Separate(queues: seq<seq<Point>>) {
    && (forall i | 0 <= i < |queues| :: Distinct(queues[i]))
    && (forall i, j, p | 0 <= i < j < |queues| && p in queues[i] :: p !in queues[j])
  }

  lemma {:induction false} FlattenDistinct(queues: seq<seq<Point>>)
    requires Separate(queues)
    ensures Distinct(Flatten(queues))
  {
    if queues != [] {
      FlattenDistinct(queues[1..]);
      forall p | p in queues[0]
        ensures p !in Flatten(queues[1..])
      {
        FlattenMembers(queues[1..], p);
      }
      DistinctConcat(queues[0], Flatten(queues[1..]));
    }
  }

  /** Queue i holds exactly the points with key keys[i]. */
  ghost predicate Sorts(points: seq<Point>, key: Point -> Tuple, keys: seq<Tuple>, queues: seq<seq<Point>>) {
    && |queues| == |keys|
    && (forall i | 0 <= i < |queues| :: Distinct(queues[i]))
    && (forall i, p | 0 <= i < |queues| :: p in queues[i] <==> p in points && key(p) == keys[i])
  }

  /** A round robin over all strata of a key enumerates every point once. */
  lemma SortedQueuesPermute(points: seq<Point>, key: Point -> Tuple, keys: seq<Tuple>, queues: seq<seq<Point>>)
    requires Distinct(points) && Partition(keys, {}, KeySet(points, key)) && Sorts(points, key, keys, queues)
    ensures IsPermutation(RoundRobin(queues), points)
  {
    forall i, j, p | 0 <= i < j < |queues| && p in queues[i]
      ensures p !in queues[j]
    {
      assert key(p) == keys[i] && keys[i] != keys[j];
    }
    FlattenDistinct(queues);
    forall p
      ensures p in Flatten(queues) <==> p in points
    {
      FlattenMembers(queues, p);
      if p in points {
        KeySetMembers(points, key, key(p));
        var i :| 0 <= i < |keys| && keys[i] == key(p);
        assert p in queues[i];
      }
    }
    SameMembersPermutation(Flatten(queues), points);
    RoundRobinPermutes(queues);
  }

  lemma QueuesPermute(points: seq<Point>, key: Point -> Tuple, keys: seq<Tuple>)
    requires Distinct(points) && Partition(keys, {}, KeySet(points, key))
    ensures IsPermutation(RoundRobin(Queues(points, key, keys)), points)
  {
    var queues := Queues(points, key, keys);
    forall i | 0 <= i < |queues|
      ensures forall p :: p in queues[i] <==> p in points && key(p) == keys[i]
      ensures Distinct(queues[i])
    {
      QueueMembers(points, key, keys[i]);
    }
    SortedQueuesPermute(points, key, keys, queues);
  }

  // ------------------------------------------------------- representatives

  /** The representative of a stratum: its point with the smallest identity. */
  function Representatives(points: seq<Point>, key: Point -> Tuple, keys: seq<Tuple>): (r: seq<Point>)
    requires forall k | k in keys :: k in KeySet(points, key)
    ensures |r| == |keys|
    ensures forall i | 0 <= i < |keys| :: r[i] in points && key(r[i]) == keys[i]
  {
    if keys == [] then []
    else
      var k := keys[0];
      QueueMembers(points, key, k);
      assert k in keys;
      KeySetMembers(points, key, k);
      [Queue(points, key, k)[0]] + Representatives(points, key, keys[1..])
  }

  /** First occurrences by identity, in order. */
  function Unique(s: seq<Point>): seq<Point> {
    if s == [] then []
    else
      var rest, p := Unique(s[..|s| - 1]), s[|s| - 1];
      if exists q | q in rest :: q.id == p.id then rest else rest + [p]
  }

  method RemoveDuplicates(ordered: seq<Point>) returns (unique: seq<Point>)
    ensures unique == Unique(ordered)
  {
    unique := [];
    var seen: set<int> := {};
    for i := 0 to |ordered|
      invariant unique == Unique(ordered[..i])
      invariant forall id: int :: id in seen <==> exists q | q in unique :: q.id == id
    {
      var p := ordered[i];
      assert ordered[..i + 1][..i] == ordered[..i];
      if p.id !in seen {
        seen := seen + {p.id};
        unique := unique + [p];
        assert p in unique;
      }
    }
    assert ordered[..|ordered|] == ordered;
  }

  lemma {:induction false} UniqueFacts(s: seq<Point>)
    requires IdsIdentify(s)
    ensures DistinctIds(Unique(s))
    ensures forall p :: p in Unique(s) <==> p in s
  {
    if s != [] {
      var t := s[..|s| - 1];
      assert s == t + [s[|s| - 1]];
      UniqueFacts(t);
    }
  }

  /** A prefix without repeated identities survives unchanged. */
  lemma {:induction false} UniquePrefix(a: seq<Point>, b: seq<Point>)
    requires DistinctIds(a)
    ensures a <= Unique(a + b)
    decreases |a| + |b|
  {
    if b == [] {
      assert a + b == a;
      UniqueOfDistinct(a);
    } else {
      var c := b[..|b| - 1];
      assert (a + b)[..|a + b| - 1] == a + c;
      UniquePrefix(a, c);
    }
  }

  lemma {:induction false} UniqueOfDistinct(a: seq<Point>)
    requires DistinctIds(a)
    ensures Unique(a) == a
  {
    if a != [] {
      UniqueOfDistinct(a[..|a| - 1]);
      assert a == a[..|a| - 1] + [a[|a| - 1]];
    }
  }

  // ------------------------------------------------------ the complete order

  function FamilyOf(): Point -> Tuple { (p: Point) => p.family }
  function FactorStratumOf(): Point -> Tuple { (p: Point) => p.factorStratum }
  function StratumOf(): Point -> Tuple { (p: Point) => p.stratum }
  function StrategyOf(): Point -> Tuple { (p: Point) => p.strategy }
  function LaunchOf(): Point -> Tuple { (p: Point) => p.launch }

  const FACTOR_AXES: nat := 6

  /** ("native", "linear", 1, (), (), ()). */
  const DEFAULT_STRATEGY: Tuple := [0, 0, 1, 0, 0, 0]

  ghost predicate WellShaped(points: seq<Point>) {
    forall p | p in points :: |p.factorStratum| == FACTOR_AXES && |p.strategy| == |DEFAULT_STRATEGY|
  }

  predicate IsFactorStreamed(points: seq<Point>) {
    points != [] && points[0].family != [] && points[0].family[0] == FACTOR_STREAMED
  }

  ghost predicate FactorOrderBy(points: seq<Point>, keys: seq<Tuple>, full: seq<Point>) {
    && Partition(keys, {}, KeySet(points, FactorStratumOf())) && Greedy(keys, 0, |keys|)
    && full == RoundRobin(Queues(points, FactorStratumOf(), keys))
  }

  /** The key orders of the deduplicating path. */
  datatype Keys = Keys(strategies: seq<Tuple>, families: seq<Tuple>, launches: seq<Tuple>, strata: seq<Tuple>)

  ghost predicate KeysOf(points: seq<Point>, k: Keys) {
    && IsStrategyOrder(k.strategies, KeySet(points, StrategyOf()), DEFAULT_STRATEGY)
    && IsSortedOrder(k.families, KeySet(points, FamilyOf()))
    && IsSortedOrder(k.launches, KeySet(points, LaunchOf()))
    && IsSortedOrder(k.strata, KeySet(points, StratumOf()))
  }

  /** Everything the deduplicating path lists before it removes repetitions. */
  ghost function Listed(points: seq<Point>, k: Keys): seq<Point>
    requires KeysOf(points, k)
  {
    Representatives(points, StrategyOf(), k.strategies)
    + (Representatives(points, FamilyOf(), k.families)
       + Representatives(points, LaunchOf(), k.launches)
       + RoundRobin(Queues(points, StratumOf(), k.strata)))
  }

  ghost predicate ListedBy(points: seq<Point>, k: Keys, listed: seq<Point>) {
    KeysOf(points, k) && listed == Listed(points, k)
  }

  ghost predicate MappedOrderBy(points: seq<Point>, k: Keys, full: seq<Point>) {
    KeysOf(points, k) && full == Unique(Listed(points, k))
  }

  /** The order of one family. */
  ghost predicate IsFamilyOrder(points: seq<Point>, full: seq<Point>) {
    if IsFactorStreamed(points) then exists keys :: FactorOrderBy(points, keys, full)
    else exists k :: MappedOrderBy(points, k, full)
  }

  /** Every queue so far is the one its key asks for. */
  ghost predicate Matched(keys: seq<Tuple>, queues: seq<seq<Point>>, wanted: (Tuple, seq<Point>) -> bool) {
    |queues| <= |keys| && forall i | 0 <= i < |queues| :: wanted(keys[i], queues[i])
  }

  ghost function OrdersFamily(points: seq<Point>): (Tuple, seq<Point>) -> bool {
    (family: Tuple, queue: seq<Point>) => IsFamilyOrder(Group(points, FamilyOf(), family), queue)
  }

  ghost predicate FamiliesOrderBy(points: seq<Point>, keys: seq<Tuple>, queues: seq<seq<Point>>, full: seq<Point>) {
    && IsSortedOrder(keys, KeySet(points, FamilyOf())) && |queues| == |keys|
    && Matched(keys, queues, OrdersFamily(points))
    && full == RoundRobin(queues)
  }

  /** The complete order, for a budget of 0. */
  ghost predicate IsStratifiedOrder(points: seq<Point>, full: seq<Point>) {
    if |KeySet(points, FamilyOf())| > 1
    then exists keys, queues :: FamiliesOrderBy(points, keys, queues, full)
    else IsFamilyOrder(points, full)
  }

  // --- it is unique, so screening and every resumed screening see the same order

  lemma FamilyOrderUnique(points: seq<Point>, a: seq<Point>, b: seq<Point>)
    requires IsFamilyOrder(points, a) && IsFamilyOrder(points, b)
    ensures a == b
  {
    if IsFactorStreamed(points) {
      var x :| FactorOrderBy(points, x, a);
      var y :| FactorOrderBy(points, y, b);
      FactorOrderUnique(x, y, KeySet(points, FactorStratumOf()));
    } else {
      var x :| MappedOrderBy(points, x, a);
      var y :| MappedOrderBy(points, y, b);
      StrategyOrderUnique(x.strategies, y.strategies, KeySet(points, StrategyOf()), DEFAULT_STRATEGY);
      SortedOrderUnique(x.families, y.families, KeySet(points, FamilyOf()));
      SortedOrderUnique(x.launches, y.launches, KeySet(points, LaunchOf()));
      SortedOrderUnique(x.strata, y.strata, KeySet(points, StratumOf()));
    }
  }

  lemma QueuesUnique(points: seq<Point>, keys: seq<Tuple>, xs: seq<seq<Point>>, ys: seq<seq<Point>>)
    requires |xs| == |keys| == |ys|
    requires Matched(keys, xs, OrdersFamily(points)) && Matched(keys, ys, OrdersFamily(points))
    ensures xs == ys
  {
    forall i | 0 <= i < |keys|
      ensures xs[i] == ys[i]
    {
      assert OrdersFamily(points)(keys[i], xs[i]) && OrdersFamily(points)(keys[i], ys[i]);
      FamilyOrderUnique(Group(points, FamilyOf(), keys[i]), xs[i], ys[i]);
    }
  }

  lemma StratifiedOrderUnique(points: seq<Point>, a: seq<Point>, b: seq<Point>)
    requires IsStratifiedOrder(points, a) && IsStratifiedOrder(points, b)
    ensures a == b
  {
    if |KeySet(points, FamilyOf())| > 1 {
      var x, xs :| FamiliesOrderBy(points, x, xs, a);
      var y, ys :| FamiliesOrderBy(points, y, ys, b);
      SortedOrderUnique(x, y, KeySet(points, FamilyOf()));
      QueuesUnique(points, x, xs, ys);
    } else {
      FamilyOrderUnique(points, a, b);
    }
  }

  // --- it is a permutation of the points

  lemma ListedMembers(points: seq<Point>, k: Keys)
    requires DistinctIds(points) && KeysOf(points, k)
    ensures forall p :: p in Listed(points, k) <==> p in points
  {
    DistinctIdsFacts(points);
    QueuesPermute(points, StratumOf(), k.strata);
    PermutationSize(RoundRobin(Queues(points, StratumOf(), k.strata)), points);
    var s := Representatives(points, StrategyOf(), k.strategies);
    var f := Representatives(points, FamilyOf(), k.families);
    var l := Representatives(points, LaunchOf(), k.launches);
    assert forall p | p in s :: p in points;
    assert forall p | p in f :: p in points;
    assert forall p | p in l :: p in points;
  }

  lemma FamilyOrderPermutes(points: seq<Point>, full: seq<Point>)
    requires DistinctIds(points) && IsFamilyOrder(points, full)
    ensures IsPermutation(full, points)
  {
    DistinctIdsFacts(points);
    if IsFactorStreamed(points) {
      var keys :| FactorOrderBy(points, keys, full);
      QueuesPermute(points, FactorStratumOf(), keys);
    } else {
      var k :| MappedOrderBy(points, k, full);
      ListedMembers(points, k);
      UniqueFacts(Listed(points, k));
      DistinctIdsFacts(full);
      SameMembersPermutation(full, points);
    }
  }

  lemma FamilyQueueMembers(points: seq<Point>, family: Tuple, queue: seq<Point>)
    requires DistinctIds(points) && IsFamilyOrder(Group(points, FamilyOf(), family), queue)
    ensures Distinct(queue) && forall p :: p in queue <==> p in points && FamilyOf()(p) == family
  {
    var g := Group(points, FamilyOf(), family);
    DistinctIdsFacts(points);
    GroupOfDistinct(points, FamilyOf(), family);
    GroupMembers(points, FamilyOf(), family);
    FamilyOrderPermutes(g, queue);
    PermutationSize(queue, g);
    DistinctPermutation(g, queue);
  }

  /** With budget 0 the result is a permutation of the points, through the family recursion,
      the factor path and the deduplicating path alike. */
  lemma StratifiedPermutes(points: seq<Point>, full: seq<Point>)
    requires DistinctIds(points) && IsStratifiedOrder(points, full)
    ensures IsPermutation(full, points)
  {
    if |KeySet(points, FamilyOf())| > 1 {
      var keys, queues :| FamiliesOrderBy(points, keys, queues, full);
      DistinctIdsFacts(points);
      forall i | 0 <= i < |queues|
        ensures Distinct(queues[i])
        ensures forall p :: p in queues[i] <==> p in points && FamilyOf()(p) == keys[i]
      {
        FamilyQueueMembers(points, keys[i], queues[i]);
      }
      SortedQueuesPermute(points, FamilyOf(), keys, queues);
    } else {
      FamilyOrderPermutes(points, full);
    }
  }

  // --- what a bounded screening sees first

  /** In the deduplicating path the first entries are one representative of each strategy, in
      strategy order. */
  lemma StrategiesFirst(points: seq<Point>, k: Keys, full: seq<Point>)
    requires DistinctIds(points) && MappedOrderBy(points, k, full)
    ensures |k.strategies| <= |full|
    ensures forall i | 0 <= i < |k.strategies| :: full[i].strategy == k.strategies[i]
  {
    var s := Representatives(points, StrategyOf(), k.strategies);
    DistinctIdsFacts(points);
    forall i, j | 0 <= i < j < |s|
      ensures s[i].id != s[j].id
    {
      assert StrategyOf()(s[i]) != StrategyOf()(s[j]);
      assert s[i] in points && s[j] in points;
    }
    UniquePrefix(s, Representatives(points, FamilyOf(), k.families)
                    + Representatives(points, LaunchOf(), k.launches)
                    + RoundRobin(Queues(points, StratumOf(), k.strata)));
    forall i | 0 <= i < |s|
      ensures full[i].strategy == k.strategies[i]
    {
      assert full[i] == s[i];
      assert StrategyOf()(s[i]) == k.strategies[i];
    }
  }

  /** The first m points show every value of every strategy axis, once m reaches the number of
      distinct values minus the axes plus one, as long as the greedy part is that long. */
  lemma ScreeningCoversAxes(points: seq<Point>, k: Keys, full: seq<Point>, m: nat, p: Point, axis: nat)
    returns (i: nat)
    requires DistinctIds(points) && WellShaped(points) && MappedOrderBy(points, k, full)
    requires 1 <= m <= Capped(|k.strategies|)
    requires DistinctValues(k.strategies, |DEFAULT_STRATEGY|) + 1 <= m + |DEFAULT_STRATEGY|
    requires p in points && axis < |DEFAULT_STRATEGY|
    ensures i < m && i < |full| && axis < |full[i].strategy| && full[i].strategy[axis] == p.strategy[axis]
  {
    StrategiesFirst(points, k, full);
    i := StrategyAxisCovered(points, k.strategies, m, p, axis);
  }

  lemma StrategyAxisCovered(points: seq<Point>, order: seq<Tuple>, m: nat, p: Point, axis: nat) returns (i: nat)
    requires WellShaped(points) && IsStrategyOrder(order, KeySet(points, StrategyOf()), DEFAULT_STRATEGY)
    requires 1 <= m <= Capped(|order|)
    requires DistinctValues(order, |DEFAULT_STRATEGY|) + 1 <= m + |DEFAULT_STRATEGY|
    requires p in points && axis < |DEFAULT_STRATEGY|
    ensures i < m && axis < |order[i]| && order[i][axis] == p.strategy[axis]
  {
    var strategies := KeySet(points, StrategyOf());
    KeySetMembers(points, StrategyOf(), p.strategy);
    assert StrategyOf()(p) == p.strategy;
    assert p.strategy in order;
    var j :| 0 <= j < |order| && order[j] == p.strategy;
    ShapedKeys(points);
    ShapedPartition(order, strategies, |DEFAULT_STRATEGY|);
    GreedyOrderCovers(order, |DEFAULT_STRATEGY|, if DEFAULT_STRATEGY in strategies then 1 else 0, Capped(|order|), m);
    i := UsedTuple(order[..m], axis, order[j][axis]);
  }

  lemma ShapedPartition(order: seq<Tuple>, strata: set<Tuple>, axes: nat)
    requires Partition(order, {}, strata) && forall r | r in strata :: |r| == axes
    ensures Shaped(order, axes)
  {
  }

  lemma {:induction false} UsedTuple(rows: seq<Tuple>, axis: nat, v: int) returns (i: nat)
    requires Uses(rows, axis, v) > 0
    ensures i < |rows| && axis < |rows[i]| && rows[i][axis] == v
  {
    var last := |rows| - 1;
    if axis < |rows[last]| && rows[last][axis] == v {
      i := last;
    } else {
      i := UsedTuple(rows[..last], axis, v);
    }
  }

  // --- and with several families, on either path

  lemma {:induction false} HeadsOfFull(queues: seq<seq<Point>>)
    requires forall i | 0 <= i < |queues| :: queues[i] != []
    ensures |Heads(queues)| == |queues| && forall i | 0 <= i < |queues| :: Heads(queues)[i] == queues[i][0]
  {
    if queues != [] {
      HeadsOfFull(queues[1..]);
    }
  }

  /** On the factor path the first entries are one representative of each stratum, in greedy order. */
  lemma FactorStrataFirst(points: seq<Point>, keys: seq<Tuple>, full: seq<Point>)
    requires FactorOrderBy(points, keys, full)
    ensures |keys| <= |full| && forall i | 0 <= i < |keys| :: full[i].factorStratum == keys[i]
  {
    var queues: seq<seq<Point>> := Queues(points, FactorStratumOf(), keys);
    forall i | 0 <= i < |queues|
      ensures queues[i] != [] && queues[i][0].factorStratum == keys[i]
    {
      QueueMembers(points, FactorStratumOf(), keys[i]);
      assert keys[i] in keys;
      KeySetMembers(points, FactorStratumOf(), keys[i]);
      assert queues[i][0] in queues[i];
    }
    HeadsOfFull(queues);
    if queues != [] {
      assert Heads(queues)[0] == queues[0][0];
    }
  }

  lemma FactorAxisCovered(points: seq<Point>, keys: seq<Tuple>, full: seq<Point>, m: nat, p: Point, axis: nat)
    returns (i: nat)
    requires WellShaped(points) && FactorOrderBy(points, keys, full) && 1 <= m <= |keys|
    requires DistinctValues(keys, FACTOR_AXES) + 1 <= m + FACTOR_AXES && p in points && axis < FACTOR_AXES
    ensures i < m && i < |full| && axis < |full[i].factorStratum|
    ensures full[i].factorStratum[axis] == p.factorStratum[axis]
  {
    FactorStrataFirst(points, keys, full);
    var strata := KeySet(points, FactorStratumOf());
    KeySetMembers(points, FactorStratumOf(), p.factorStratum);
    assert FactorStratumOf()(p) == p.factorStratum;
    assert p.factorStratum in keys;
    var j :| 0 <= j < |keys| && keys[j] == p.factorStratum;
    ShapedKeys(points);
    ShapedPartition(keys, strata, FACTOR_AXES);
    GreedyOrderCovers(keys, FACTOR_AXES, 0, |keys|, m);
    i := UsedTuple(keys[..m], axis, keys[j][axis]);
  }

  /** The axes that steer the order of a family. */
  function AxesOf(points: seq<Point>, p: Point): Tuple {
    if IsFactorStreamed(points) then p.factorStratum else p.strategy
  }

  /** m entries of this family order are enough to show every axis value: distinct values minus axes plus
      one, where the greedy part is that long. */
  ghost predicate Enough(points: seq<Point>, full: seq<Point>, m: nat) {
    if IsFactorStreamed(points)
    then exists keys :: FactorOrderBy(points, keys, full) && 1 <= m <= |keys|
                        && DistinctValues(keys, FACTOR_AXES) + 1 <= m + FACTOR_AXES
    else exists k :: MappedOrderBy(points, k, full) && 1 <= m <= Capped(|k.strategies|)
                     && DistinctValues(k.strategies, |DEFAULT_STRATEGY|) + 1 <= m + |DEFAULT_STRATEGY|
  }

  lemma FamilyShows(points: seq<Point>, full: seq<Point>, m: nat, p: Point, axis: nat) returns (i: nat)
    requires DistinctIds(points) && WellShaped(points) && Enough(points, full, m)
    requires p in points && axis < |AxesOf(points, p)|
    ensures i < m && i < |full| && axis < |AxesOf(points, full[i])|
    ensures AxesOf(points, full[i])[axis] == AxesOf(points, p)[axis]
  {
    if IsFactorStreamed(points) {
      var keys :| FactorOrderBy(points, keys, full) && 1 <= m <= |keys|
                  && DistinctValues(keys, FACTOR_AXES) + 1 <= m + FACTOR_AXES;
      i := FactorAxisCovered(points, keys, full, m, p, axis);
    } else {
      var k :| MappedOrderBy(points, k, full) && 1 <= m <= Capped(|k.strategies|)
               && DistinctValues(k.strategies, |DEFAULT_STRATEGY|) + 1 <= m + |DEFAULT_STRATEGY|;
      i := ScreeningCoversAxes(points, k, full, m, p, axis);
    }
  }

  lemma {:induction false} HeadsAtMost(queues: seq<seq<Point>>)
    ensures |Heads(queues)| <= |queues|
  {
    if queues != [] {
      HeadsAtMost(queues[1..]);
    }
  }

  /** The entries of the first d + 1 layers, if none of the n queues has run out. */
  function Layers(d: nat, n: nat): nat {
    if d == 0 then n else n + Layers(d - 1, n)
  }

  lemma {:induction false} LayersProduct(d: nat, n: nat)
    ensures Layers(d, n) == (d + 1) * n
  {
    if d > 0 {
      LayersProduct(d - 1, n);
      assert (d + 1) * n == d * n + n;
    }
  }

  /** Entry d of queue g stands at position i of the order, within the first d + 1 layers. */
  ghost predicate StandsAt(order: seq<Point>, queues: seq<seq<Point>>, g: nat, d: nat, i: nat) {
    && g < |queues| && d < |queues[g]| && i < |order| && i < Layers(d, |queues|)
    && order[i] == queues[g][d]
  }

  lemma FirstLayer(queues: seq<seq<Point>>, rest: seq<Point>, g: nat) returns (i: nat)
    requires g < |queues| && queues[g] != []
    ensures StandsAt(Heads(queues) + rest, queues, g, 0, i)
  {
    HeadsMembers(queues, g);
    HeadsAtMost(queues);
    i :| 0 <= i < |Heads(queues)| && Heads(queues)[i] == queues[g][0];
  }

  lemma NextLayer(queues: seq<seq<Point>>, rest: seq<Point>, g: nat, d: nat, j: nat) returns (i: nat)
    requires g < |queues| && d + 1 < |queues[g]| && StandsAt(rest, Tails(queues), g, d, j)
    ensures StandsAt(Heads(queues) + rest, queues, g, d + 1, i)
  {
    HeadsAtMost(queues);
    i := |Heads(queues)| + j;
  }

  /** The order of the queues is their first layer and then the order of what is left. */
  ghost predicate Unrolls(order: seq<seq<Point>> -> seq<Point>, queues: seq<seq<Point>>) {
    order(queues) == Heads(queues) + order(Tails(queues))
  }

  predicate HasEntry(queues: seq<seq<Point>>) {
    exists q | q in queues :: q != []
  }

  lemma RoundRobinUnrolls(queues: seq<seq<Point>>)
    requires HasEntry(queues)
    ensures Unrolls(RoundRobin, queues)
  {
    var q :| q in queues && q != [];
    var g :| 0 <= g < |queues| && queues[g] == q;
    HeadsMembers(queues, g);
  }

  lemma {:induction false} LayerByLayer(
    order: seq<seq<Point>> -> seq<Point>, queues: seq<seq<Point>>, g: nat, d: nat) returns (i: nat)
    requires forall q :: HasEntry(q) ==> Unrolls(order, q)
    requires g < |queues| && d < |queues[g]|
    ensures StandsAt(order(queues), queues, g, d, i)
    decreases d
  {
    var rest := order(Tails(queues));
    assert queues[g] in queues && HasEntry(queues);
    assert Unrolls(order, queues);
    if d == 0 {
      i := FirstLayer(queues, rest, g);
    } else {
      var j := LayerByLayer(order, Tails(queues), g, d - 1);
      i := NextLayer(queues, rest, g, d - 1, j);
    }
  }

  /** Entry d of a queue comes within the first d + 1 layers. */
  lemma RoundRobinReaches(queues: seq<seq<Point>>, g: nat, d: nat) returns (i: nat)
    requires g < |queues| && d < |queues[g]|
    ensures StandsAt(RoundRobin(queues), queues, g, d, i)
  {
    forall q | HasEntry(q)
      ensures Unrolls(RoundRobin, q)
    {
      RoundRobinUnrolls(q);
    }
    i := LayerByLayer(RoundRobin, queues, g, d);
  }

  lemma {:induction false} GroupOfAll(points: seq<Point>, key: Point -> Tuple, k: Tuple)
    requires forall p | p in points :: key(p) == k
    ensures Group(points, key, k) == points
  {
    if points != [] {
      GroupOfAll(points[..|points| - 1], key, k);
      assert points == points[..|points| - 1] + [points[|points| - 1]];
      assert points[|points| - 1] in points;
    }
  }

  lemma OneFamily(points: seq<Point>, p: Point)
    requires p in points && |KeySet(points, FamilyOf())| <= 1
    ensures |KeySet(points, FamilyOf())| == 1 && Group(points, FamilyOf(), p.family) == points
  {
    var families := KeySet(points, FamilyOf());
    KeySetMembers(points, FamilyOf(), p.family);
    assert FamilyOf()(p) == p.family;
    SubsetSize({p.family}, families);
    SubsetOfSameSize({p.family}, families);
    forall q | q in points
      ensures FamilyOf()(q) == p.family
    {
      KeySetMembers(points, FamilyOf(), q.family);
      assert FamilyOf()(q) == q.family;
    }
    GroupOfAll(points, FamilyOf(), p.family);
  }

  /** Whatever families a library has: if m entries are enough for a family's own order, the first m entries
      per family of the complete order show every axis value of that family. */
  lemma StratifiedShows(points: seq<Point>, full: seq<Point>, own: seq<Point>, m: nat, p: Point, axis: nat)
    returns (i: nat)
    requires DistinctIds(points) && WellShaped(points) && IsStratifiedOrder(points, full) && p in points
    requires var family := Group(points, FamilyOf(), p.family);
      IsFamilyOrder(family, own) && Enough(family, own, m) && axis < |AxesOf(family, p)|
    ensures i < |full| && i < m * |KeySet(points, FamilyOf())|
    ensures var family := Group(points, FamilyOf(), p.family);
      full[i] in own && axis < |AxesOf(family, full[i])| && AxesOf(family, full[i])[axis] == AxesOf(family, p)[axis]
  {
    var family := Group(points, FamilyOf(), p.family);
    GroupMembers(points, FamilyOf(), p.family);
    assert FamilyOf()(p) == p.family;
    GroupOfDistinct(points, FamilyOf(), p.family);
    var d := FamilyShows(family, own, m, p, axis);
    if |KeySet(points, FamilyOf())| > 1 {
      var keys, queues :| FamiliesOrderBy(points, keys, queues, full);
      KeySetMembers(points, FamilyOf(), p.family);
      assert p.family in keys;
      var g :| 0 <= g < |keys| && keys[g] == p.family;
      assert OrdersFamily(points)(keys[g], queues[g]);
      FamilyOrderUnique(family, own, queues[g]);
      KeysAreFamilies(points, keys);
      i := RoundRobinReaches(queues, g, d);
      LayersProduct(d, |keys|);
      WithinTurns(d, m, |keys|);
    } else {
      OneFamily(points, p);
      FamilyOrderUnique(points, own, full);
      i := d;
    }
  }

  lemma KeysAreFamilies(points: seq<Point>, keys: seq<Tuple>)
    requires IsSortedOrder(keys, KeySet(points, FamilyOf()))
    ensures |keys| == |KeySet(points, FamilyOf())|
  {
    PartitionSize(keys, KeySet(points, FamilyOf()));
  }

  lemma {:induction false} PartitionSize(keys: seq<Tuple>, s: set<Tuple>)
    requires Partition(keys, {}, s)
    ensures |keys| == |s|
  {
    if keys == [] {
      assert s == {};
    } else {
      var init, last := keys[..|keys| - 1], keys[|keys| - 1];
      assert keys == init + [last];
      assert Partition(init, {}, s - {last});
      PartitionSize(init, s - {last});
      assert s == (s - {last}) + {last};
    }
  }

  lemma WithinTurns(d: nat, m: nat, n: nat)
    requires d < m
    ensures (d + 1) * n <= m * n
  {
    assert m * n == (d + 1) * n + (m - d - 1) * n;
  }

  // --- the implementation

  method SortedGroups(points: seq<Point>, key: Point -> Tuple, keys: seq<Tuple>) returns (queues: seq<seq<Point>>)
    requires Partition(keys, {}, KeySet(points, key))
    ensures queues == Queues(points, key, keys)
  {
    var groups := GroupBy(points, key);
    queues := [];
    for i := 0 to |keys|
      invariant |queues| == i
      invariant forall j | 0 <= j < i :: queues[j] == Queue(points, key, keys[j])
    {
      assert keys[i] in keys;
      queues := queues + [SortBy(groups[keys[i]], ById())];
    }
  }

  method OrderFamily(points: seq<Point>) returns (ordered: seq<Point>)
    requires WellShaped(points)
    ensures IsFamilyOrder(points, ordered)
  {
    if IsFactorStreamed(points) {
      ShapedKeys(points);
      var keys := FactorStrataOrder(KeySet(points, FactorStratumOf()), FACTOR_AXES);
      var queues := SortedGroups(points, FactorStratumOf(), keys);
      ordered := RoundRobin(queues);
      assert FactorOrderBy(points, keys, ordered);
    } else {
      ordered := OrderMapped(points);
    }
  }

  lemma ShapedKeys(points: seq<Point>)
    requires WellShaped(points)
    ensures forall r | r in KeySet(points, FactorStratumOf()) :: |r| == FACTOR_AXES
    ensures forall r | r in KeySet(points, StrategyOf()) :: |r| == |DEFAULT_STRATEGY|
  {
  }

  /** Everything the deduplicating path lists. */
  method ListMapped(points: seq<Point>) returns (listed: seq<Point>)
    requires WellShaped(points)
    ensures exists k :: ListedBy(points, k, listed)
  {
    ShapedKeys(points);
    var strategies := StrategyOrder(KeySet(points, StrategyOf()), DEFAULT_STRATEGY);
    var families := SortedTuples(KeySet(points, FamilyOf()));
    var launches := SortedTuples(KeySet(points, LaunchOf()));
    var strata := SortedTuples(KeySet(points, StratumOf()));
    var queues := SortedGroups(points, StratumOf(), strata);
    listed := Representatives(points, StrategyOf(), strategies)
              + (Representatives(points, FamilyOf(), families)
                 + Representatives(points, LaunchOf(), launches)
                 + RoundRobin(queues));
    assert ListedBy(points, Keys(strategies, families, launches, strata), listed);
  }

  method OrderMapped(points: seq<Point>) returns (ordered: seq<Point>)
    requires WellShaped(points)
    ensures exists k :: MappedOrderBy(points, k, ordered)
  {
    var listed := ListMapped(points);
    ordered := RemoveDuplicates(listed);
    ghost var k :| ListedBy(points, k, listed);
    assert MappedOrderBy(points, k, ordered);
  }

  method OrderGroup(points: seq<Point>, family: Tuple, group: seq<Point>) returns (queue: seq<Point>)
    requires WellShaped(points) && group == Group(points, FamilyOf(), family)
    ensures IsFamilyOrder(group, queue)
  {
    GroupMembers(points, FamilyOf(), family);
    queue := OrderFamily(group);
  }

  lemma MatchedNext(keys: seq<Tuple>, queues: seq<seq<Point>>, queue: seq<Point>, wanted: (Tuple, seq<Point>) -> bool)
    requires Matched(keys, queues, wanted) && |queues| < |keys| && wanted(keys[|queues|], queue)
    ensures Matched(keys, queues + [queue], wanted)
  {
  }

  method FamilyQueues(points: seq<Point>, keys: seq<Tuple>) returns (queues: seq<seq<Point>>)
    requires WellShaped(points)
    requires forall k | k in keys :: k in KeySet(points, FamilyOf())
    ensures Matched(keys, queues, OrdersFamily(points)) && |queues| == |keys|
  {
    var groups := GroupBy(points, FamilyOf());
    queues := [];
    while |queues| < |keys|
      invariant Matched(keys, queues, OrdersFamily(points))
      decreases |keys| - |queues|
    {
      var k := keys[|queues|];
      assert k in keys;
      var queue := OrderGroup(points, k, groups[k]);
      MatchedNext(keys, queues, queue, OrdersFamily(points));
      queues := queues + [queue];
    }
  }

  /** The recursion over families: every family on its own, then round-robin. */
  method OrderFamilies(points: seq<Point>) returns (full: seq<Point>)
    requires WellShaped(points)
    ensures exists keys, queues :: FamiliesOrderBy(points, keys, queues, full)
  {
    var keys := SortedTuples(KeySet(points, FamilyOf()));
    var queues := FamilyQueues(points, keys);
    full := RoundRobin(queues);
    assert FamiliesOrderBy(points, keys, queues, full);
  }

  method CompleteOrder(points: seq<Point>) returns (full: seq<Point>)
    requires WellShaped(points)
    ensures IsStratifiedOrder(points, full)
  {
    if |KeySet(points, FamilyOf())| > 1 {
      full := OrderFamilies(points);
    } else {
      full := OrderFamily(points);
    }
  }

  /** The first entries of the complete order. */
  ghost predicate BeginsOrder(points: seq<Point>, ordered: seq<Point>, full: seq<Point>) {
    IsStratifiedOrder(points, full) && ordered <= full
  }

  /** Budget 0 gives the complete order, any other budget its first entries. */
  method StratifiedCandidates(points: seq<Point>, budget: nat) returns (ordered: seq<Point>)
    requires WellShaped(points)
    ensures exists full :: BeginsOrder(points, ordered, full)
                           && |ordered| == if budget == 0 || budget > |full| then |full| else budget
  {
    var full := CompleteOrder(points);
    ordered := if budget == 0 || budget >= |full| then full else full[..budget];
    assert BeginsOrder(points, ordered, full);
  }
}
