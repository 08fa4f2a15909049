/** The turns of one workload's search: seeds first, then a model's choices with every fourth
    turn taking the next stratum, under a budget. */
module Screening {
  import opened Sets
  import opened Sorting
  import opened GreedyCoverage
  import opened StratifiedOrder
  import opened ResumePrefix

  /** One workload: the chosen seeds, the stratified order of the library points that are no
      chosen seed, every listed candidate and the exploration budget (0 = everything). */
  datatype Plan = Plan(seeds: seq<Point>, order: seq<Point>, inventory: seq<Point>, searchBudget: nat)

  ghost predicate ValidPlan(plan: Plan) {
    && DistinctIds(plan.seeds + plan.order)
    && DistinctIds(plan.inventory)
    && forall p | p in plan.seeds + plan.order :: p in plan.inventory
  }

  function Exploration(plan: Plan): nat {
    var wanted := if plan.searchBudget == 0 then |plan.order| else plan.searchBudget;
    if wanted <= |plan.order| then wanted else |plan.order|
  }

  function Budget(plan: Plan): nat {
    |plan.seeds| + Exploration(plan)
  }

  /** The points of the order whose identities have not been taken. */
  function Unscreened(order: seq<Point>, taken: seq<int>): seq<Point> {
    if order == [] then []
    else (if order[0].id in taken then [] else [order[0]]) + Unscreened(order[1..], taken)
  }

  /** Every fourth non-seed turn explores. */
  predicate Explores(plan: Plan, turn: nat) {
    turn >= |plan.seeds| && (turn - |plan.seeds|) % 4 == 0
  }

  /** A turn may take the next seed, then any unscreened point, and the first one when it explores. */
  ghost predicate LegalTurn(plan: Plan, taken: seq<int>, id: int) {
    if |taken| < |plan.seeds| then id == plan.seeds[|taken|].id
    else
      var rest := Unscreened(plan.order, taken);
      exists k :: 0 <= k < |rest| && rest[k].id == id && (Explores(plan, |taken|) ==> k == 0)
  }

  ghost predicate Legal(plan: Plan, taken: seq<int>) {
    && |taken| <= Budget(plan)
    && forall i | 0 <= i < |taken| :: LegalTurn(plan, taken[..i], taken[i])
  }

  // ------------------------------------------------------ the frontier shrinks

  lemma {:induction false} UnscreenedMembers(order: seq<Point>, taken: seq<int>)
    ensures forall p :: p in Unscreened(order, taken) <==> p in order && p.id !in taken
  {
    if order != [] {
      UnscreenedMembers(order[1..], taken);
      assert order == [order[0]] + order[1..];
    }
  }

  /** Filtering the frontier once more is filtering the order by one more identity. */
  lemma {:induction false} UnscreenedStep(order: seq<Point>, taken: seq<int>, id: int)
    ensures Unscreened(Unscreened(order, taken), [id]) == Unscreened(order, taken + [id])
  {
    if order != [] {
      UnscreenedStep(order[1..], taken, id);
      var p, rest := order[0], Unscreened(order[1..], taken);
      assert p.id in taken + [id] <==> p.id in taken || p.id in [id];
      if p.id !in taken {
        assert Unscreened(order, taken) == [p] + rest;
        assert ([p] + rest)[1..] == rest;
      } else {
        assert Unscreened(order, taken) == rest;
      }
    }
  }

  lemma {:induction false} UnscreenedSize(order: seq<Point>, taken: seq<int>, id: int)
    requires DistinctIds(order)
    ensures |Unscreened(order, taken + [id])| ==
            |Unscreened(order, taken)| - if exists p :: p in Unscreened(order, taken) && p.id == id then 1 else 0
  {
    if order != [] {
      var rest := order[1..];
      UnscreenedSize(rest, taken, id);
      UnscreenedMembers(rest, taken);
      UnscreenedMembers(order, taken);
      forall p | p in rest
        ensures p.id != order[0].id
      {
        var j :| 0 <= j < |rest| && rest[j] == p;
        assert order[j + 1] == p;
      }
      assert order[0].id in taken + [id] <==> order[0].id in taken || order[0].id == id;
      assert order == [order[0]] + rest;
      if order[0].id == id && id !in taken {
        assert order[0] in Unscreened(order, taken);
      }
    }
  }

  lemma {:induction false} UnscreenedAll(order: seq<Point>, taken: seq<int>)
    requires forall p | p in order :: p.id !in taken
    ensures Unscreened(order, taken) == order
  {
    if order != [] {
      UnscreenedAll(order[1..], taken);
      assert order == [order[0]] + order[1..];
    }
  }

  lemma OrderIdsDistinct(plan: Plan)
    requires ValidPlan(plan)
    ensures DistinctIds(plan.order)
    ensures forall s, p | s in plan.seeds && p in plan.order :: s.id != p.id
  {
    var all, n := plan.seeds + plan.order, |plan.seeds|;
    forall i, j | 0 <= i < j < |plan.order|
      ensures plan.order[i].id != plan.order[j].id
    {
      assert all[n + i] == plan.order[i] && all[n + j] == plan.order[j];
    }
    forall s, p | s in plan.seeds && p in plan.order
      ensures s.id != p.id
    {
      var i :| 0 <= i < n && plan.seeds[i] == s;
      var j :| 0 <= j < |plan.order| && plan.order[j] == p;
      assert all[i] == s && all[n + j] == p;
    }
  }

  lemma LegalPrefix(plan: Plan, taken: seq<int>, n: nat)
    requires Legal(plan, taken) && n <= |taken|
    ensures Legal(plan, taken[..n])
  {
    forall i | 0 <= i < n
      ensures LegalTurn(plan, taken[..n][..i], taken[..n][i])
    {
      assert taken[..n][..i] == taken[..i];
    }
  }

  lemma LegalStep(plan: Plan, taken: seq<int>, id: int)
    requires Legal(plan, taken) && LegalTurn(plan, taken, id) && |taken| < Budget(plan)
    ensures Legal(plan, taken + [id])
  {
    var next := taken + [id];
    forall i | 0 <= i < |next|
      ensures LegalTurn(plan, next[..i], next[i])
    {
      assert next[..i] == if i < |taken| then taken[..i] else taken;
    }
  }

  lemma FrontierLoses(plan: Plan, taken: seq<int>, id: int)
    requires ValidPlan(plan) && LegalTurn(plan, taken, id) && |taken| >= |plan.seeds|
    ensures |Unscreened(plan.order, taken + [id])| == |Unscreened(plan.order, taken)| - 1
  {
    OrderIdsDistinct(plan);
    UnscreenedSize(plan.order, taken, id);
  }

  /** After n turns the frontier has lost exactly the non-seed turns. */
  lemma {:induction false} FrontierSize(plan: Plan, taken: seq<int>)
    requires ValidPlan(plan) && Legal(plan, taken)
    ensures |taken| <= |plan.seeds| ==> Unscreened(plan.order, taken) == plan.order
    ensures |taken| > |plan.seeds| ==>
              |Unscreened(plan.order, taken)| == |plan.order| - (|taken| - |plan.seeds|)
    decreases |taken|
  {
    if |taken| <= |plan.seeds| {
      SeedTurnsKeepOrder(plan, taken);
    } else {
      var n := |taken| - 1;
      var before, id := taken[..n], taken[n];
      LegalPrefix(plan, taken, n);
      FrontierSize(plan, before);
      assert LegalTurn(plan, before, id);
      FrontierLoses(plan, before, id);
      assert taken == before + [id];
    }
  }

  lemma SeedTurnsKeepOrder(plan: Plan, taken: seq<int>)
    requires ValidPlan(plan) && Legal(plan, taken) && |taken| <= |plan.seeds|
    ensures Unscreened(plan.order, taken) == plan.order
  {
    OrderIdsDistinct(plan);
    forall p | p in plan.order
      ensures p.id !in taken
    {
      forall i | 0 <= i < |taken|
        ensures taken[i] != p.id
      {
        assert LegalTurn(plan, taken[..i], taken[i]);
        assert plan.seeds[i] in plan.seeds;
      }
    }
    UnscreenedAll(plan.order, taken);
  }

  /** Before the budget is used up there is always a choice left. */
  lemma NeverRunsOut(plan: Plan, taken: seq<int>)
    requires ValidPlan(plan) && Legal(plan, taken) && |plan.seeds| <= |taken| < Budget(plan)
    ensures Unscreened(plan.order, taken) != []
  {
    FrontierSize(plan, taken);
  }

  // ------------------------------------------------------- what a cell screens

  /** No candidate is screened twice. */
  lemma {:induction false} LegalDistinct(plan: Plan, taken: seq<int>)
    requires ValidPlan(plan) && Legal(plan, taken)
    ensures Distinct(taken)
    decreases |taken|
  {
    if taken != [] {
      var n := |taken| - 1;
      var before, id := taken[..n], taken[n];
      LegalPrefix(plan, taken, n);
      LegalDistinct(plan, before);
      assert LegalTurn(plan, before, id);
      assert id !in before by {
        if n < |plan.seeds| {
          forall i | 0 <= i < n
            ensures taken[i] != id
          {
            assert LegalTurn(plan, taken[..i], taken[i]);
            var all := plan.seeds + plan.order;
            assert all[i] == plan.seeds[i] && all[n] == plan.seeds[n];
          }
        } else {
          UnscreenedMembers(plan.order, before);
        }
      }
      forall i, j | 0 <= i < j < |taken|
        ensures taken[i] != taken[j]
      {
        if j == n {
          assert before[i] in before;
        } else {
          assert before[i] != before[j];
        }
      }
    }
  }

  /** The budget in the terms of the command line: all seeds, and of the library as many points as asked for,
      or all of them. */
  lemma BudgetIs(plan: Plan)
    ensures plan.searchBudget == 0 ==> Budget(plan) == |plan.seeds| + |plan.order|
    ensures 0 < plan.searchBudget <= |plan.order| ==> Budget(plan) == |plan.seeds| + plan.searchBudget
    ensures plan.searchBudget > |plan.order| ==> Budget(plan) == |plan.seeds| + |plan.order|
  {
  }

  ghost predicate StandBefore(order: seq<Point>, p: Point, q: Point) {
    exists a, b :: 0 <= a < b < |order| && order[a] == p && order[b] == q
  }

  lemma StandBeforeInRest(order: seq<Point>, p: Point, q: Point)
    requires order != [] && StandBefore(order[1..], p, q)
    ensures StandBefore(order, p, q)
  {
    var a, b :| 0 <= a < b < |order[1..]| && order[1..][a] == p && order[1..][b] == q;
    assert order[a + 1] == p && order[b + 1] == q;
  }

  /** The frontier keeps the order of the points. */
  lemma {:induction false} FrontierOrder(order: seq<Point>, taken: seq<int>, i: nat, j: nat)
    requires i < j < |Unscreened(order, taken)|
    ensures StandBefore(order, Unscreened(order, taken)[i], Unscreened(order, taken)[j])
  {
    var left, all := Unscreened(order[1..], taken), Unscreened(order, taken);
    if order[0].id in taken {
      assert all == left;
      FrontierOrder(order[1..], taken, i, j);
      StandBeforeInRest(order, all[i], all[j]);
    } else {
      assert all == [order[0]] + left;
      if i == 0 {
        UnscreenedMembers(order[1..], taken);
        HeadStandsBefore(order, all[j], left, j - 1);
      } else {
        FrontierOrder(order[1..], taken, i - 1, j - 1);
        StandBeforeInRest(order, all[i], all[j]);
      }
    }
  }

  lemma HeadStandsBefore(order: seq<Point>, q: Point, left: seq<Point>, j: nat)
    requires order != [] && j < |left| && left[j] == q && forall p | p in left :: p in order[1..]
    ensures StandBefore(order, order[0], q)
  {
    assert q in order[1..];
    var b :| 0 <= b < |order[1..]| && order[1..][b] == q;
    assert order[b + 1] == q;
  }

  /** What a turn takes away from a frontier without repetitions is one entry. */
  lemma {:induction false} FrontierWithout(frontier: seq<Point>, k: nat)
    requires DistinctIds(frontier) && k < |frontier|
    ensures Unscreened(frontier, [frontier[k].id]) == frontier[..k] + frontier[k + 1..]
  {
    var rest := frontier[1..];
    if k == 0 {
      forall p | p in rest
        ensures p.id !in [frontier[0].id]
      {
        var j :| 0 <= j < |rest| && rest[j] == p;
        assert frontier[j + 1] == p;
      }
      UnscreenedAll(rest, [frontier[0].id]);
    } else {
      FrontierWithout(rest, k - 1);
      assert frontier[..k] + frontier[k + 1..] == [frontier[0]] + (rest[..k - 1] + rest[k..]);
    }
  }

  lemma {:induction false} FrontierDistinct(order: seq<Point>, taken: seq<int>)
    requires DistinctIds(order)
    ensures DistinctIds(Unscreened(order, taken))
  {
    if order != [] {
      var rest := order[1..];
      FrontierDistinct(rest, taken);
      UnscreenedMembers(rest, taken);
      var left, all := Unscreened(rest, taken), Unscreened(order, taken);
      forall j | 0 <= j < |left|
        ensures left[j].id != order[0].id
      {
        assert left[j] in rest;
        var b :| 0 <= b < |rest| && rest[b] == left[j];
        assert order[b + 1] == left[j];
      }
    }
  }

  /** A legal sequence contains only candidates of the plan. */
  lemma LegalMembers(plan: Plan, taken: seq<int>, i: nat) returns (p: Point)
    requires Legal(plan, taken) && i < |taken|
    ensures p in plan.seeds + plan.order && p.id == taken[i]
  {
    assert LegalTurn(plan, taken[..i], taken[i]);
    if i < |plan.seeds| {
      p := plan.seeds[i];
    } else {
      var rest := Unscreened(plan.order, taken[..i]);
      var k :| 0 <= k < |rest| && rest[k].id == taken[i];
      p := rest[k];
      UnscreenedMembers(plan.order, taken[..i]);
      assert p in rest;
    }
  }

  /** With search budget 0 a completed cell has screened every seed and every library point. */
  lemma ExhaustiveBudget(plan: Plan, taken: seq<int>)
    requires ValidPlan(plan) && Legal(plan, taken) && |taken| == Budget(plan) && plan.searchBudget == 0
    ensures forall p | p in plan.seeds + plan.order :: p.id in taken
  {
    FrontierSize(plan, taken);
    UnscreenedMembers(plan.order, taken);
    forall p | p in plan.seeds
      ensures p.id in taken
    {
      var i :| 0 <= i < |plan.seeds| && plan.seeds[i] == p;
      assert LegalTurn(plan, taken[..i], taken[i]);
    }
    if plan.order == [] {
      assert Unscreened(plan.order, taken) == [];
    }
    forall p | p in plan.order
      ensures p.id in taken
    {
      assert p !in Unscreened(plan.order, taken);
    }
  }

  // ------------------------------------------------------------- starvation

  lemma {:induction false} FirstUnscreened(order: seq<Point>, taken: seq<int>, t: nat)
    requires t < |order| && order[t].id !in taken
    requires forall j | 0 <= j < t :: order[j].id in taken
    ensures Unscreened(order, taken) != [] && Unscreened(order, taken)[0] == order[t]
  {
    if t > 0 {
      FirstUnscreened(order[1..], taken, t - 1);
    }
  }

  /** After non-seed turn 4t the first t + 1 points of the stratified order have been screened,
      whatever the model preferred in between. */
  lemma {:induction false} StarvationBound(plan: Plan, taken: seq<int>, t: nat)
    requires Legal(plan, taken) && |taken| > |plan.seeds| + 4 * t
    ensures forall j | 0 <= j <= t && j < |plan.order| :: plan.order[j].id in taken
    decreases t
  {
    var i := |plan.seeds| + 4 * t;
    var before := taken[..i];
    if t > 0 {
      LegalPrefix(plan, taken, i);
      StarvationBound(plan, before, t - 1);
    }
    forall j | 0 <= j <= t && j < |plan.order|
      ensures plan.order[j].id in taken
    {
      if j < t {
        assert plan.order[j].id in before;
      } else if plan.order[t].id !in before {
        FirstUnscreened(plan.order, before, t);
        assert LegalTurn(plan, before, taken[i]);
      }
    }
  }

  /** The promise of the whole arrangement, for libraries of any number of families: m being enough entries
      of the own order of p's family, once m turns per family have explored some screened point of that
      family shows p's value on any given axis. */
  lemma ScreeningShowsEveryAxisValue(
    plan: Plan, library: seq<Point>, own: seq<Point>, taken: seq<int>, m: nat, p: Point, axis: nat) returns (q: Point)
    requires DistinctIds(library) && WellShaped(library) && IsStratifiedOrder(library, plan.order) && p in library
    requires var family := Group(library, FamilyOf(), p.family);
      IsFamilyOrder(family, own) && Enough(family, own, m) && axis < |AxesOf(family, p)|
    requires Legal(plan, taken) && |taken| > |plan.seeds| + 4 * (m * |KeySet(library, FamilyOf())| - 1)
    ensures q in plan.order && q in own && q.id in taken
    ensures var family := Group(library, FamilyOf(), p.family);
      axis < |AxesOf(family, q)| && AxesOf(family, q)[axis] == AxesOf(family, p)[axis]
  {
    var i := StratifiedShows(library, plan.order, own, m, p, axis);
    StarvationBound(plan, taken, m * |KeySet(library, FamilyOf())| - 1);
    q := plan.order[i];
  }

  /** What one turn does to the selections and to the frontier. */
  lemma TurnFacts(plan: Plan, taken: seq<int>, point: Point, k: nat)
    requires ValidPlan(plan) && Legal(plan, taken) && |taken| < Budget(plan)
    requires |taken| < |plan.seeds| ==> point == plan.seeds[|taken|]
    requires |taken| >= |plan.seeds| ==>
      && k < |Unscreened(plan.order, taken)| && point == Unscreened(plan.order, taken)[k]
      && (Explores(plan, |taken|) ==> k == 0)
    ensures Legal(plan, taken + [point.id]) && point in plan.seeds + plan.order
    ensures var frontier := Unscreened(plan.order, taken);
      Unscreened(frontier, [point.id]) ==
      if |taken| < |plan.seeds| then frontier else frontier[..k] + frontier[k + 1..]
  {
    var frontier := Unscreened(plan.order, taken);
    OrderIdsDistinct(plan);
    UnscreenedMembers(plan.order, taken);
    if |taken| < |plan.seeds| {
      assert point in plan.seeds;
      UnscreenedAll(frontier, [point.id]);
    } else {
      FrontierDistinct(plan.order, taken);
      FrontierWithout(frontier, k);
      assert point in frontier;
    }
    LegalStep(plan, taken, point.id);
  }

  // ------------------------------------------------------------ the loop itself

  function Ids(points: seq<Point>): (r: seq<int>)
    ensures |r| == |points| && forall i | 0 <= i < |points| :: r[i] == points[i].id
  {
    seq(|points|, i requires 0 <= i < |points| => points[i].id)
  }

  /** The screening loop of one cell: the frontier and the screened selections are updated
      turn by turn. */
  class CellSearch {
    const plan: Plan
    var remaining: seq<Point>
    var screened: seq<Point>

    ghost predicate Valid()
      reads this
    {
      && ValidPlan(plan)
      && Legal(plan, Ids(screened))
      && remaining == Unscreened(plan.order, Ids(screened))
      && forall p | p in screened :: p in plan.seeds + plan.order
    }

    /** Start fresh, or continue after the configurations recovered by a resume. */
    constructor (plan: Plan, prefix: seq<Point>)
      requires ValidPlan(plan) && Legal(plan, Ids(prefix))
      requires forall p | p in prefix :: p in plan.seeds + plan.order
      ensures Valid() && this.plan == plan && screened == prefix
    {
      this.plan := plan;
      screened := prefix;
      remaining := Unscreened(plan.order, Ids(prefix));
    }

    /** The choice of a turn: the next seed; then the model's first choice of the frontier, except on every
        fourth turn and before there is a model, which take the frontier's first entry. `modelReady` says
        whether there is a model and `preferred` which entry it ranks first; both are arbitrary. */
    method Select(modelReady: bool, preferred: nat) returns (k: nat, point: Point)
      requires Valid() && |screened| < Budget(plan)
      ensures |screened| < |plan.seeds| ==> point == plan.seeds[|screened|]
      ensures |screened| >= |plan.seeds| ==>
        && k < |remaining| && point == remaining[k]
        && k == if modelReady && (|screened| - |plan.seeds|) % 4 != 0 then preferred % |remaining| else 0
    {
      var i := |screened|;
      var exploit := i >= |plan.seeds| && modelReady && (i - |plan.seeds|) % 4 != 0;
      k := 0;
      if i < |plan.seeds| {
        point := plan.seeds[i];
      } else {
        NeverRunsOut(plan, Ids(screened));
        k := if exploit then preferred % |remaining| else 0;
        point := remaining[k];
      }
    }

    /** One turn: the selection joins the screened ones and leaves the frontier. */
    method Turn(modelReady: bool, preferred: nat) returns (k: nat, point: Point)
      requires Valid() && |screened| < Budget(plan)
      modifies this
      ensures Valid() && screened == old(screened) + [point]
      ensures |old(screened)| < |plan.seeds| ==> point == plan.seeds[|old(screened)|] && remaining == old(remaining)
      ensures |old(screened)| >= |plan.seeds| ==>
        && k < |old(remaining)| && point == old(remaining)[k]
        && k == (if modelReady && (|old(screened)| - |plan.seeds|) % 4 != 0 then preferred % |old(remaining)| else 0)
        && remaining == old(remaining)[..k] + old(remaining)[k + 1..]
    {
      k, point := Select(modelReady, preferred);
      ghost var taken := Ids(screened);
      TurnFacts(plan, taken, point, k);
      UnscreenedStep(plan.order, taken, point.id);
      remaining := Unscreened(remaining, [point.id]);
      screened := screened + [point];
      assert Ids(screened) == taken + [point.id];
    }

    /** Without a time limit the cell screens exactly the requested number of pairwise distinct
        candidates, after and including those it was resumed with: all seeds, and all points of the order or
        as many as the search budget says. */
    method Run(modelReady: nat -> bool, preferred: (nat, seq<Point>) -> nat)
      requires Valid()
      modifies this
      ensures Valid() && old(screened) <= screened && Distinct(Ids(screened))
      ensures plan.searchBudget == 0 || plan.searchBudget >= |plan.order| ==>
                |screened| == |plan.seeds| + |plan.order|
      ensures 0 < plan.searchBudget < |plan.order| ==> |screened| == |plan.seeds| + plan.searchBudget
    {
      while |screened| < Budget(plan)
        invariant Valid() && old(screened) <= screened
        decreases Budget(plan) - |screened|
      {
        var _, point := Turn(modelReady(|screened|), preferred(|screened|, remaining));
      }
      LegalDistinct(plan, Ids(screened));
      BudgetIs(plan);
    }
  }
}
