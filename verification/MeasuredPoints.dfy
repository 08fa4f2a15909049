/** The measured shapes the selector is built from, and what a selection means on them. */
module MeasuredPoints {
  import opened Options
  import opened Sorting
  import opened PiecewiseSelector

  /** The aggregated trials of one mapping at one shape. */
  datatype Row = Row(contract: ContractKey, batch: int, mapping: string, median: real, trialMin: real, trialMax: real)

  datatype Shape = Shape(contract: ContractKey, batch: int)

  function ShapeOf(row: Row): Shape {
    Shape(row.contract, row.batch)
  }

  function PointShape(p: Measured): Shape {
    Shape(p.contract, p.batch)
  }

  // ------------------------------------------------------------ specification

  /** A smaller median, or the same one earlier in the list. */
  ghost predicate Faster(rows: seq<Row>, i: nat, j: nat)
    requires i < |rows| && j < |rows|
  {
    rows[i].median < rows[j].median || (rows[i].median == rows[j].median && i < j)
  }

  /** Rows i and j are the fastest and the second fastest of a shape. */
  ghost predicate Podium(rows: seq<Row>, shape: Shape, i: nat, j: nat) {
    && i < |rows| && j < |rows| && ShapeOf(rows[i]) == shape == ShapeOf(rows[j]) && Faster(rows, i, j)
    && forall k: nat | k < |rows| && ShapeOf(rows[k]) == shape && k != i && k != j :: Faster(rows, j, k)
  }

  ghost predicate Usable(rows: seq<Row>, shape: Shape) {
    exists i: nat, j: nat :: Podium(rows, shape, i, j) && rows[i].median != 0.0
  }

  /** The point of a shape whose two fastest rows are i and j. */
  ghost predicate IsPoint(rows: seq<Row>, full: bool, p: Measured, i: nat, j: nat) {
    && Podium(rows, PointShape(p), i, j) && rows[i].median != 0.0
    && p.winner == rows[i].mapping
    && p.winnerMargin == rows[j].median / rows[i].median - 1.0
    && p.separated == (rows[i].trialMax < rows[j].trialMin)
    && p.full == full && !p.boundary
    && forall x: string :: Offers(p.candidates, x) <==> HasMapping(rows, PointShape(p), x)
  }

  ghost predicate HasMapping(rows: seq<Row>, shape: Shape, mapping: string) {
    exists k :: 0 <= k < |rows| && ShapeOf(rows[k]) == shape && rows[k].mapping == mapping
  }

  ghost predicate HasPoint(points: seq<Measured>, shape: Shape) {
    exists p :: p in points && PointShape(p) == shape
  }

  ghost predicate PointOf(rows: seq<Row>, full: bool, p: Measured) {
    exists i: nat, j: nat :: IsPoint(rows, full, p, i, j)
  }

  /** One of the first n rows has the shape. */
  ghost predicate Occurs(rows: seq<Row>, n: nat, shape: Shape) {
    exists i :: 0 <= i < n && i < |rows| && ShapeOf(rows[i]) == shape
  }

  /** A row of one shape stands in front of all rows of another. */
  ghost predicate SeenBefore(rows: seq<Row>, first: Shape, second: Shape) {
    exists i :: 0 <= i < |rows| && ShapeOf(rows[i]) == first && !Occurs(rows, i, second)
  }

  // ----------------------------------------------------------------- one shape

  /** The places of the shape's rows among the first n. */
  function PlacesOf(rows: seq<Row>, shape: Shape, n: nat): seq<nat>
    requires n <= |rows|
  {
    if n == 0 then []
    else PlacesOf(rows, shape, n - 1) + if ShapeOf(rows[n - 1]) == shape then [n - 1] else []
  }

  function MedianAt(rows: seq<Row>, i: nat): real {
    if i < |rows| then rows[i].median else 0.0
  }

  function ByMedian(rows: seq<Row>): (nat, nat) -> bool {
    (i: nat, j: nat) => MedianAt(rows, i) <= MedianAt(rows, j)
  }

  lemma {:induction false} PlacesFacts(rows: seq<Row>, shape: Shape, n: nat)
    requires n <= |rows|
    ensures forall i: nat :: i in PlacesOf(rows, shape, n) <==> i < n && ShapeOf(rows[i]) == shape
    ensures forall a, b | 0 <= a < b < |PlacesOf(rows, shape, n)| ::
              PlacesOf(rows, shape, n)[a] < PlacesOf(rows, shape, n)[b]
  {
    if n > 0 {
      PlacesFacts(rows, shape, n - 1);
      var before := PlacesOf(rows, shape, n - 1);
      forall a | 0 <= a < |before|
        ensures before[a] < n - 1
      {
        assert before[a] in before;
      }
    }
  }

  lemma RankedMembers(rows: seq<Row>, shape: Shape, order: seq<nat>)
    requires order == SortBy(PlacesOf(rows, shape, |rows|), ByMedian(rows))
    ensures |order| == |PlacesOf(rows, shape, |rows|)|
    ensures forall i: nat :: i in order <==> i < |rows| && ShapeOf(rows[i]) == shape
  {
    var places := PlacesOf(rows, shape, |rows|);
    PlacesFacts(rows, shape, |rows|);
    SortFacts(places, ByMedian(rows));
    PermutationSize(order, places);
    forall i: nat
      ensures i in order <==> i < |rows| && ShapeOf(rows[i]) == shape
    {
      assert i in order <==> i in places;
    }
  }

  lemma RankedFaster(rows: seq<Row>, places: seq<nat>, order: seq<nat>, a: nat, b: nat)
    requires order == SortBy(places, ByMedian(rows)) && a < b < |order|
    requires order[a] < |rows| && order[b] < |rows|
    requires forall x, y | 0 <= x < y < |places| :: places[x] < places[y]
    ensures Faster(rows, order[a], order[b])
  {
    SortFacts(places, ByMedian(rows));
    assert ByMedian(rows)(order[a], order[b]);
    if ByMedian(rows)(order[b], order[a]) {
      SortIsStable(places, ByMedian(rows), a, b);
      var x, y :| 0 <= x < y < |places| && places[x] == order[a] && places[y] == order[b];
    }
  }

  lemma RankedPair(rows: seq<Row>, shape: Shape, order: seq<nat>, a: nat, b: nat)
    requires order == SortBy(PlacesOf(rows, shape, |rows|), ByMedian(rows)) && a < b < |order|
    ensures order[a] < |rows| && order[b] < |rows| && Faster(rows, order[a], order[b])
  {
    RankedMembers(rows, shape, order);
    PlacesFacts(rows, shape, |rows|);
    assert order[a] in order && order[b] in order;
    RankedFaster(rows, PlacesOf(rows, shape, |rows|), order, a, b);
  }

  /** The shape's places by median, equal medians in the order of the rows. */
  ghost predicate Ranked(rows: seq<Row>, order: seq<nat>) {
    forall a, b | 0 <= a < b < |order| ::
      order[a] < |rows| && order[b] < |rows| && Faster(rows, order[a], order[b])
  }

  lemma RankingFacts(rows: seq<Row>, shape: Shape, order: seq<nat>)
    requires order == SortBy(PlacesOf(rows, shape, |rows|), ByMedian(rows))
    ensures Ranked(rows, order)
  {
    forall a, b | 0 <= a < b < |order|
      ensures order[a] < |rows| && order[b] < |rows| && Faster(rows, order[a], order[b])
    {
      RankedPair(rows, shape, order, a, b);
    }
  }

  /** The first two of that ranking are the only podium. */
  lemma PodiumFacts(rows: seq<Row>, shape: Shape, order: seq<nat>)
    requires order == SortBy(PlacesOf(rows, shape, |rows|), ByMedian(rows))
    ensures |order| >= 2 ==> Podium(rows, shape, order[0], order[1])
    ensures forall i, j | Podium(rows, shape, i, j) :: |order| >= 2 && i == order[0] && j == order[1]
  {
    RankedMembers(rows, shape, order);
    RankingFacts(rows, shape, order);
    if |order| >= 2 {
      assert order[0] in order && order[1] in order;
      forall k: nat | k < |rows| && ShapeOf(rows[k]) == shape && k != order[0] && k != order[1]
        ensures Faster(rows, order[1], k)
      {
        var c :| 0 <= c < |order| && order[c] == k;
      }
    }
    forall i, j | Podium(rows, shape, i, j)
      ensures |order| >= 2 && i == order[0] && j == order[1]
    {
      var a :| 0 <= a < |order| && order[a] == i;
      var b :| 0 <= b < |order| && order[b] == j;
      assert a != b;
      OnlyPodium(rows, shape, i, j, order[0], order[1]);
    }
  }

  lemma OnlyPodium(rows: seq<Row>, shape: Shape, i: nat, j: nat, x: nat, y: nat)
    requires Podium(rows, shape, i, j)
    ensures Podium(rows, shape, x, y) ==> i == x && j == y
  {
  }

  /** The rows of one shape by median: the first two must exist, and the first one's median is divided by. */
  method MeasureShape(rows: seq<Row>, shape: Shape, places: seq<nat>, full: bool) returns (point: Option<Measured>)
    requires places == PlacesOf(rows, shape, |rows|)
    ensures point.Some? <==> Usable(rows, shape)
    ensures point.Some? ==> PointOf(rows, full, point.value) && PointShape(point.value) == shape
  {
    var order := SortBy(places, ByMedian(rows));
    RankedMembers(rows, shape, order);
    RankingFacts(rows, shape, order);
    PodiumFacts(rows, shape, order);
    if |order| < 2 {
      return None;
    }
    var i, j := order[0], order[1];
    var winner, runnerUp := rows[i], rows[j];
    if winner.median == 0.0 {
      return None;
    }
    assert forall c | 0 <= c < |order| :: order[c] in order;
    var candidates := seq(|order|, c requires 0 <= c < |order| =>
      Candidate(rows[order[c]].mapping, rows[order[c]].median));
    var p := Measured(shape.contract, shape.batch, winner.mapping, runnerUp.median / winner.median - 1.0,
                      winner.trialMax < runnerUp.trialMin, full, false, candidates);
    CandidatesFacts(rows, shape, order, candidates);
    assert IsPoint(rows, full, p, i, j);
    return Some(p);
  }

  lemma CandidatesFacts(rows: seq<Row>, shape: Shape, order: seq<nat>, candidates: seq<Candidate>)
    requires forall i: nat :: i in order <==> i < |rows| && ShapeOf(rows[i]) == shape
    requires |candidates| == |order|
    requires forall c | 0 <= c < |order| :: order[c] < |rows| && candidates[c].mapping == rows[order[c]].mapping
    ensures forall x: string :: Offers(candidates, x) <==> HasMapping(rows, shape, x)
  {
    forall x: string
      ensures Offers(candidates, x) <==> HasMapping(rows, shape, x)
    {
      if Offers(candidates, x) {
        var c :| 0 <= c < |candidates| && candidates[c].mapping == x;
        assert order[c] in order;
      }
      if HasMapping(rows, shape, x) {
        var k: nat :| k < |rows| && ShapeOf(rows[k]) == shape && rows[k].mapping == x;
        var c :| 0 <= c < |order| && order[c] == k;
        assert candidates[c] in candidates;
      }
    }
  }

  // ---------------------------------------------------------------- all shapes

  lemma {:induction false} NoPlaces(rows: seq<Row>, s: Shape, n: nat)
    requires n <= |rows| && !Occurs(rows, n, s)
    ensures PlacesOf(rows, s, n) == []
  {
    if n > 0 {
      NoPlaces(rows, s, n - 1);
    }
  }

  lemma OccursNext(rows: seq<Row>, n: nat, s: Shape)
    requires n < |rows|
    ensures Occurs(rows, n + 1, s) <==> Occurs(rows, n, s) || s == ShapeOf(rows[n])
  {
  }

  lemma AllSeenBefore(rows: seq<Row>, n: nat, first: Shape)
    requires n < |rows| && !Occurs(rows, n, ShapeOf(rows[n])) && Occurs(rows, n, first)
    ensures SeenBefore(rows, first, ShapeOf(rows[n]))
  {
    var i :| 0 <= i < n && ShapeOf(rows[i]) == first;
    assert !Occurs(rows, i, ShapeOf(rows[n]));
  }

  /** The groups hold the places among the first n rows, and the shapes are their keys as they first occur. */
  ghost predicate Grouped(rows: seq<Row>, n: nat, shapes: seq<Shape>, groups: map<Shape, seq<nat>>)
    requires n <= |rows|
  {
    && (forall s :: s in groups <==> s in shapes)
    && (forall s :: s in shapes <==> Occurs(rows, n, s))
    && (forall s | s in groups :: groups[s] == PlacesOf(rows, s, n))
    && Distinct(shapes)
    && forall a, b | 0 <= a < b < |shapes| :: SeenBefore(rows, shapes[a], shapes[b])
  }

  lemma GroupedAgain(rows: seq<Row>, n: nat, shapes: seq<Shape>, groups: map<Shape, seq<nat>>)
    requires n < |rows| && Grouped(rows, n, shapes, groups) && ShapeOf(rows[n]) in groups
    ensures var s := ShapeOf(rows[n]); Grouped(rows, n + 1, shapes, groups[s := groups[s] + [n]])
  {
    forall s
      ensures s in shapes <==> Occurs(rows, n + 1, s)
    {
      OccursNext(rows, n, s);
    }
  }

  lemma GroupedNew(rows: seq<Row>, n: nat, shapes: seq<Shape>, groups: map<Shape, seq<nat>>)
    requires n < |rows| && Grouped(rows, n, shapes, groups) && ShapeOf(rows[n]) !in groups
    ensures var s := ShapeOf(rows[n]); Grouped(rows, n + 1, shapes + [s], groups[s := [n]])
  {
    var added := ShapeOf(rows[n]);
    NoPlaces(rows, added, n);
    forall s
      ensures s in shapes + [added] <==> Occurs(rows, n + 1, s)
    {
      OccursNext(rows, n, s);
    }
    forall a | 0 <= a < |shapes|
      ensures SeenBefore(rows, shapes[a], added)
    {
      assert shapes[a] in shapes;
      AllSeenBefore(rows, n, shapes[a]);
    }
  }

  /** The rows of each shape, and the shapes as the dictionary lists them. */
  method GroupRows(rows: seq<Row>) returns (shapes: seq<Shape>, groups: map<Shape, seq<nat>>)
    ensures Grouped(rows, |rows|, shapes, groups)
  {
    shapes, groups := [], map[];
    for n := 0 to |rows|
      invariant Grouped(rows, n, shapes, groups)
    {
      var place: nat, s := n, ShapeOf(rows[n]);
      if s in groups {
        GroupedAgain(rows, place, shapes, groups);
        groups := groups[s := groups[s] + [place]];
      } else {
        GroupedNew(rows, place, shapes, groups);
        groups := groups[s := [place]];
        shapes := shapes + [s];
      }
    }
  }

  lemma ShapesDiffer(shapes: seq<Shape>, measured: seq<Measured>)
    requires Distinct(shapes) && |measured| == |shapes|
    requires forall a | 0 <= a < |shapes| :: PointShape(measured[a]) == shapes[a]
    ensures DistinctBatches(measured)
  {
    forall a, b | 0 <= a < b < |measured|
      ensures PointShape(measured[a]) != PointShape(measured[b])
    {
      assert shapes[a] != shapes[b];
    }
  }

  /** The points of the first shapes. */
  ghost predicate MeasuredFrom(rows: seq<Row>, full: bool, shapes: seq<Shape>, measured: seq<Measured>) {
    && |measured| <= |shapes|
    && forall a | 0 <= a < |measured| ::
         Usable(rows, shapes[a]) && PointOf(rows, full, measured[a]) && PointShape(measured[a]) == shapes[a]
  }

  /** One point for every shape of the rows, in the order in which the shapes first occur. */
  ghost predicate AllMeasured(rows: seq<Row>, full: bool, points: seq<Measured>) {
    && DistinctBatches(points)
    && (forall p | p in points :: PointOf(rows, full, p))
    && (forall i | 0 <= i < |rows| :: HasPoint(points, ShapeOf(rows[i])))
    && forall a, b | 0 <= a < b < |points| :: SeenBefore(rows, PointShape(points[a]), PointShape(points[b]))
  }

  ghost predicate AllUsable(rows: seq<Row>) {
    forall i | 0 <= i < |rows| :: Usable(rows, ShapeOf(rows[i]))
  }

  lemma MeasuredAll(rows: seq<Row>, full: bool, shapes: seq<Shape>, groups: map<Shape, seq<nat>>, points: seq<Measured>)
    requires Grouped(rows, |rows|, shapes, groups) && |points| == |shapes| && MeasuredFrom(rows, full, shapes, points)
    ensures AllMeasured(rows, full, points) && AllUsable(rows)
  {
    ShapesDiffer(shapes, points);
    forall i | 0 <= i < |rows|
      ensures Usable(rows, ShapeOf(rows[i])) && HasPoint(points, ShapeOf(rows[i]))
    {
      assert Occurs(rows, |rows|, ShapeOf(rows[i]));
      var a :| 0 <= a < |shapes| && shapes[a] == ShapeOf(rows[i]);
      assert points[a] in points;
    }
  }

  lemma MeasuredFails(rows: seq<Row>, shapes: seq<Shape>, groups: map<Shape, seq<nat>>, n: nat)
    requires Grouped(rows, |rows|, shapes, groups) && n < |shapes| && !Usable(rows, shapes[n])
    ensures !AllUsable(rows)
  {
    assert shapes[n] in shapes;
    assert Occurs(rows, |rows|, shapes[n]);
  }

  lemma PlacesGrouped(rows: seq<Row>, shapes: seq<Shape>, groups: map<Shape, seq<nat>>)
    requires Grouped(rows, |rows|, shapes, groups)
    ensures PlacesKnown(rows, shapes, groups)
  {
    forall n | 0 <= n < |shapes|
      ensures shapes[n] in groups && groups[shapes[n]] == PlacesOf(rows, shapes[n], |rows|)
    {
      assert shapes[n] in shapes;
    }
  }

  ghost predicate PlacesKnown(rows: seq<Row>, shapes: seq<Shape>, groups: map<Shape, seq<nat>>) {
    forall n | 0 <= n < |shapes| :: shapes[n] in groups && groups[shapes[n]] == PlacesOf(rows, shapes[n], |rows|)
  }

  /** None stands for the exceptions over a shape with a single row or a fastest median of zero. */
  method MeasurePoints(rows: seq<Row>, full: bool) returns (points: Option<seq<Measured>>)
    ensures points.Some? <==> AllUsable(rows)
    ensures points.Some? ==> AllMeasured(rows, full, points.value)
  {
    var shapes, groups := GroupRows(rows);
    PlacesGrouped(rows, shapes, groups);
    var measured := MeasureShapes(rows, full, shapes, groups);
    if |measured| < |shapes| {
      MeasuredFails(rows, shapes, groups, |measured|);
      return None;
    }
    MeasuredAll(rows, full, shapes, groups, measured);
    return Some(measured);
  }

  /** The points up to the first shape that fails. */
  method MeasureShapes(rows: seq<Row>, full: bool, shapes: seq<Shape>, groups: map<Shape, seq<nat>>)
    returns (measured: seq<Measured>)
    requires PlacesKnown(rows, shapes, groups)
    ensures MeasuredFrom(rows, full, shapes, measured)
    ensures |measured| < |shapes| ==> !Usable(rows, shapes[|measured|])
  {
    measured := [];
    while |measured| < |shapes|
      invariant MeasuredFrom(rows, full, shapes, measured)
      decreases |shapes| - |measured|
    {
      var shape := shapes[|measured|];
      var point := MeasureShape(rows, shape, groups[shape], full);
      if point.None? {
        return;
      }
      MeasuredNext(rows, full, shapes, measured, point.value);
      measured := measured + [point.value];
    }
  }

  lemma MeasuredNext(rows: seq<Row>, full: bool, shapes: seq<Shape>, measured: seq<Measured>, p: Measured)
    requires MeasuredFrom(rows, full, shapes, measured) && |measured| < |shapes|
    requires Usable(rows, shapes[|measured|]) && PointOf(rows, full, p) && PointShape(p) == shapes[|measured|]
    ensures MeasuredFrom(rows, full, shapes, measured + [p])
  {
  }

  // ------------------------------------------------------- overlay and boundaries

  ghost predicate SameShape(p: Measured, q: Measured) {
    p.contract == q.contract && p.batch == q.batch
  }

  /** The last point of its shape. */
  ghost predicate Lasts(points: seq<Measured>, p: Measured) {
    exists k :: 0 <= k < |points| && points[k] == p && forall l | k < l < |points| :: !SameShape(points[l], p)
  }

  /** A dictionary by shape over the base points that the calibration points update. */
  method Overlay(base: seq<Measured>, calibration: seq<Measured>) returns (combined: seq<Measured>)
    ensures DistinctBatches(combined)
    ensures forall p :: p in combined <==> Lasts(base + calibration, p)
  {
    var points := base + calibration;
    combined := [];
    for n := 0 to |points|
      invariant DistinctBatches(combined)
      invariant forall p :: p in combined <==> Lasts(points[..n], p)
    {
      ghost var before := combined;
      var p := points[n];
      LastsNext(points, n);
      combined := Enter(combined, p);
    }
    assert points[..|points|] == points;
  }

  /** Replace the point of that shape where it stands, or append. */
  method Enter(combined: seq<Measured>, p: Measured) returns (r: seq<Measured>)
    requires DistinctBatches(combined)
    ensures DistinctBatches(r)
    ensures forall q :: q in r <==> q == p || (q in combined && !SameShape(q, p))
  {
    for i := 0 to |combined|
      invariant forall j | 0 <= j < i :: !SameShape(combined[j], p)
    {
      if combined[i].contract == p.contract && combined[i].batch == p.batch {
        r := combined[i := p];
        assert forall j | 0 <= j < |combined| && j != i :: combined[j] in combined && !SameShape(combined[j], p);
        assert r[i] == p;
        assert forall j | 0 <= j < |combined| && j != i :: r[j] == combined[j];
        return;
      }
    }
    r := combined + [p];
  }

  lemma LastsNext(points: seq<Measured>, n: nat)
    requires n < |points|
    ensures forall q ::
              Lasts(points[..n + 1], q) <==> q == points[n] || (Lasts(points[..n], q) && !SameShape(q, points[n]))
  {
    assert points[..n + 1] == points[..n] + [points[n]];
    forall q
      ensures Lasts(points[..n + 1], q) <==> q == points[n] || (Lasts(points[..n], q) && !SameShape(q, points[n]))
    {
      LastsAdded(points[..n], points[n], q);
    }
  }

  lemma LastsAdded(points: seq<Measured>, p: Measured, q: Measured)
    ensures Lasts(points + [p], q) <==> q == p || (Lasts(points, q) && !SameShape(q, p))
  {
    var after := points + [p];
    assert after[|points|] == p && forall l | 0 <= l < |points| :: after[l] == points[l];
    if Lasts(after, q) && q != p {
      var k :| 0 <= k < |after| && after[k] == q && forall l | k < l < |after| :: !SameShape(after[l], q);
      assert k < |points| && points[k] == q;
    }
    if Lasts(points, q) && !SameShape(q, p) {
      var k :| 0 <= k < |points| && points[k] == q && forall l | k < l < |points| :: !SameShape(points[l], q);
      assert after[k] == q;
    }
  }

  /** A record of the focused follow-up timing. */
  datatype Followup = Followup(contract: ContractKey, batch: int, status: string)

  /** Shapes whose follow-up was reversed or not confirmed become boundaries, all others lose the mark. */
  method ApplyFollowups(points: seq<Measured>, records: seq<Followup>) returns (marked: seq<Measured>)
    ensures |marked| == |points|
    ensures forall i | 0 <= i < |points| :: marked[i] == points[i].(boundary := exists r ::
              r in records && r.contract == points[i].contract && r.batch == points[i].batch
              && r.status in ["confirmed-reversed", "not-confirmed"])
    ensures DistinctBatches(points) ==> DistinctBatches(marked)
  {
    var unstable: set<Shape> := {};
    for n := 0 to |records|
      invariant forall s :: s in unstable <==>
        exists k :: 0 <= k < n && Shape(records[k].contract, records[k].batch) == s
                    && records[k].status in ["confirmed-reversed", "not-confirmed"]
    {
      if records[n].status == "confirmed-reversed" || records[n].status == "not-confirmed" {
        unstable := unstable + {Shape(records[n].contract, records[n].batch)};
      }
    }
    marked := seq(|points|, i requires 0 <= i < |points| =>
      points[i].(boundary := PointShape(points[i]) in unstable));
    assert forall i | 0 <= i < |points| :: points[i] in points;
  }

  // ----------------------------------------------------------- what a selection means

  /** The point shows this winner, by the margin its evidence requires, separated and not marked. */
  predicate Shows(p: Measured, m: Margins, mapping: string) {
    p.winner == mapping && p.winnerMargin >= (if p.full then m.full else m.anchor) && p.separated && !p.boundary
  }

  /** The batch lies between p and q, and no point of the contract lies between them. */
  ghost predicate Surround(points: seq<Measured>, key: ContractKey, batch: int, p: Measured, q: Measured) {
    && p in points && q in points && p.contract == key == q.contract && p.batch < batch < q.batch
    && forall r | r in points && r.contract == key :: r.batch <= p.batch || r.batch >= q.batch
  }

  ghost predicate ShownAround(points: seq<Measured>, m: Margins, key: ContractKey, batch: int, mapping: string) {
    exists p, q :: Surround(points, key, batch, p, q) && Shows(p, m, mapping) && Shows(q, m, mapping)
  }

  lemma BracketShows(points: seq<Measured>, m: Margins, key: ContractKey, batch: int, mapping: string)
    ensures Bracketed(points, m, key, batch, mapping) <==> ShownAround(points, m, key, batch, mapping)
  {
    if Bracketed(points, m, key, batch, mapping) {
      var p, q :| BracketedBy(points, m, key, batch, mapping, p, q);
      assert Surround(points, key, batch, p, q) && Shows(p, m, mapping) && Shows(q, m, mapping);
    }
    if ShownAround(points, m, key, batch, mapping) {
      var p, q :| Surround(points, key, batch, p, q) && Shows(p, m, mapping) && Shows(q, m, mapping);
      assert BracketedBy(points, m, key, batch, mapping, p, q);
    }
  }

  /** The selector's answer on the points themselves: a measured batch answers for itself, and any other batch is
      answered only by the points around it. */
  lemma SelectionMeaning(points: seq<Measured>, m: Margins, model: Model, key: ContractKey, batch: int, mapping: string)
    requires DistinctBatches(points) && IsModel(model, points, m)
    ensures Select(model, key, batch) == AutoSelect(mapping) <==>
      || (exists p :: p in points && p.contract == key && p.batch == batch && Shows(p, m, mapping))
      || ((forall p | p in points && p.contract == key :: p.batch != batch)
          && ShownAround(points, m, key, batch, mapping))
  {
    SelectMeaning(points, m, model, key, batch, mapping);
    BracketShows(points, m, key, batch, mapping);
    StableShows(points, m, key, batch, mapping);
  }

  lemma StableShows(points: seq<Measured>, m: Margins, key: ContractKey, batch: int, mapping: string)
    ensures MeasuredStable(points, m, key, batch, mapping) <==>
            exists p :: p in points && p.contract == key && p.batch == batch && Shows(p, m, mapping)
  {
  }

  /** Points p and q show the mapping around the target, and nothing between them but the target shows anything. */
  ghost predicate HeldOut(points: seq<Measured>, m: Margins, t: Measured, mapping: string, p: Measured, q: Measured) {
    && p in points && q in points && p.contract == t.contract == q.contract && p.batch < t.batch < q.batch
    && Shows(p, m, mapping) && Shows(q, m, mapping)
    && forall r | r in points && r.contract == t.contract && r != t && Shows(r, m, r.winner) ::
         r.batch <= p.batch || r.batch >= q.batch
  }

  /** The evaluation's answer for a held-out point. */
  lemma LeaveOneOutMeaning(points: seq<Measured>, target: nat, m: Margins, mapping: string)
    requires DistinctBatches(points) && target < |points|
    ensures LeaveOneOut(points, target, m) == AutoSelect(mapping) <==>
      && !points[target].boundary && (exists c :: c in points[target].candidates && c.mapping == mapping)
      && exists p, q :: HeldOut(points, m, points[target], mapping, p, q)
  {
    var t, peers := points[target], Peers(points, target, m);
    PeersFacts(points, target, m);
    TargetUnmeasured(points, target, m, mapping);
    NearestBracket(peers, m, t.contract, t.batch, mapping);
    PeersShow(points, peers, m, t, mapping);
  }

  lemma PeersShow(points: seq<Measured>, peers: seq<Measured>, m: Margins, t: Measured, mapping: string)
    requires t in points
    requires forall p :: p in peers <==> p in points && p != t && p.contract == t.contract && IsStable(p, m)
    ensures Bracketed(peers, m, t.contract, t.batch, mapping) <==>
            exists p, q :: HeldOut(points, m, t, mapping, p, q)
  {
    if Bracketed(peers, m, t.contract, t.batch, mapping) {
      var p, q :| BracketedBy(peers, m, t.contract, t.batch, mapping, p, q);
      assert HeldOut(points, m, t, mapping, p, q);
    }
    if exists p, q :: HeldOut(points, m, t, mapping, p, q) {
      var p, q :| HeldOut(points, m, t, mapping, p, q);
      assert BracketedBy(peers, m, t.contract, t.batch, mapping, p, q);
    }
  }

  /** Row i beats every other row of the shape by the margin. */
  ghost predicate Beats(rows: seq<Row>, shape: Shape, i: nat, margin: real) {
    && i < |rows| && ShapeOf(rows[i]) == shape
    && forall k | 0 <= k < |rows| && ShapeOf(rows[k]) == shape && k != i ::
         rows[k].median >= rows[i].median * (1.0 + margin)
  }

  /** A selection at a measured shape is the fastest mapping there, by the required margin over every other row. */
  lemma SelectedIsFastest(rows: seq<Row>, full: bool, points: seq<Measured>, m: Margins, model: Model,
                          p: Measured, mapping: string) returns (i: nat)
    requires DistinctBatches(points) && IsModel(model, points, m) && p in points && PointOf(rows, full, p)
    requires forall r | r in rows :: r.median > 0.0
    requires Select(model, p.contract, p.batch) == AutoSelect(mapping)
    ensures Beats(rows, PointShape(p), i, if full then m.full else m.anchor)
    ensures rows[i].mapping == mapping
  {
    SelectionMeaning(points, m, model, p.contract, p.batch, mapping);
    i := ShownBeats(rows, full, p, m, mapping);
  }

  lemma ShownBeats(rows: seq<Row>, full: bool, p: Measured, m: Margins, mapping: string) returns (i: nat)
    requires PointOf(rows, full, p) && Shows(p, m, mapping) && forall r | r in rows :: r.median > 0.0
    ensures Beats(rows, PointShape(p), i, if full then m.full else m.anchor)
    ensures rows[i].mapping == mapping
  {
    var j: nat;
    i, j :| IsPoint(rows, full, p, i, j);
    assert rows[i] in rows;
    MarginMeans(rows[i].median, rows[j].median, p.winnerMargin, if full then m.full else m.anchor);
  }

  lemma MarginMeans(fast: real, slow: real, ratio: real, margin: real)
    requires fast > 0.0 && ratio == slow / fast - 1.0 && ratio >= margin
    ensures slow >= fast * (1.0 + margin)
  {
    assert slow == (1.0 + ratio) * fast;
    NotNegative(ratio - margin, fast);
    assert (1.0 + ratio) * fast == fast * (1.0 + margin) + (ratio - margin) * fast;
  }

  lemma NotNegative(a: real, b: real)
    requires a >= 0.0 && b >= 0.0
    ensures a * b >= 0.0
  {
  }
}
