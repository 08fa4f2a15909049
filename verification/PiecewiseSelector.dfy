/** The abstaining piecewise selector over batch sizes and its leave-one-out evaluation. */
module PiecewiseSelector {
  import opened Sets
  import opened Sorting
  import opened Options

  datatype ContractKey = ContractKey(operator: string, precision: string, accumulation: string, logN: int)

  datatype Candidate = Candidate(mapping: string, median: real)

  /** A measured shape: its fastest mapping, how clearly it wins and all candidates. */
  datatype Measured = Measured(contract: ContractKey, batch: int, winner: string, winnerMargin: real,
                               separated: bool, full: bool, boundary: bool, candidates: seq<Candidate>)

  datatype Margins = Margins(anchor: real, full: real)

  predicate IsStable(p: Measured, m: Margins) {
    && p.winnerMargin >= (if p.full then m.full else m.anchor)
    && p.separated && !p.boundary
  }

  // ------------------------------------------------------------------- model

  datatype Anchor = Anchor(batch: int, mapping: string, stable: bool)
  datatype Interval = Interval(min: int, max: int, auto: bool, mapping: string)
  datatype Contract = Contract(anchors: seq<Anchor>, intervals: seq<Interval>)
  type Model = map<ContractKey, Contract>

  datatype Decision = AutoSelect(mapping: string) | MeasurementRequired

  function ByBatch(): (Measured, Measured) -> bool {
    (p: Measured, q: Measured) => p.batch <= q.batch
  }

  function InContract(points: seq<Measured>, key: ContractKey): seq<Measured> {
    if points == [] then []
    else
      var rest, p := InContract(points[..|points| - 1], key), points[|points| - 1];
      if p.contract == key then rest + [p] else rest
  }

  function AnchorOf(p: Measured, m: Margins): Anchor {
    Anchor(p.batch, p.winner, IsStable(p, m))
  }

  function Between(left: Anchor, right: Anchor): Interval {
    var stable := left.stable && right.stable && left.mapping == right.mapping;
    Interval(left.batch, right.batch, stable, if stable then left.mapping else "")
  }

  function ContractOf(points: seq<Measured>, m: Margins): Contract {
    var sorted := SortBy(points, ByBatch());
    var anchors := seq(|sorted|, i requires 0 <= i < |sorted| => AnchorOf(sorted[i], m));
    Contract(anchors, if anchors == [] then []
                      else seq(|anchors| - 1, i requires 0 <= i < |anchors| - 1 => Between(anchors[i], anchors[i + 1])))
  }

  ghost predicate HasContract(points: seq<Measured>, key: ContractKey) {
    exists p :: p in points && p.contract == key
  }

  /** The model of exactly the given points. */
  ghost predicate IsModel(model: Model, points: seq<Measured>, m: Margins) {
    && (forall key :: key in model <==> HasContract(points, key))
    && (forall key | key in model :: model[key] == ContractOf(InContract(points, key), m))
  }

  method BuildModel(points: seq<Measured>, m: Margins) returns (model: Model)
    ensures IsModel(model, points, m)
  {
    var groups: map<ContractKey, seq<Measured>> := map[];
    for i := 0 to |points|
      invariant forall key :: key in groups <==> HasContract(points[..i], key)
      invariant forall key | key in groups :: groups[key] == InContract(points[..i], key)
    {
      var p := points[i];
      assert points[..i + 1][..i] == points[..i];
      assert points[..i + 1] == points[..i] + [p];
      NoneInContract(points[..i], p.contract);
      ContractsGrow(points[..i], p);
      groups := groups[p.contract := (if p.contract in groups then groups[p.contract] else []) + [p]];
    }
    assert points[..|points|] == points;
    model := map[];
    var todo := groups.Keys;
    while todo != {}
      invariant todo <= groups.Keys && model.Keys == groups.Keys - todo
      invariant forall key | key in model :: model[key] == ContractOf(groups[key], m)
      decreases |todo|
    {
      var key := Take(todo);
      var contract := BuildContract(groups[key], m);
      model := model[key := contract];
      todo := todo - {key};
    }
  }

  /** The anchors of one contract by batch, then one interval for each neighbouring pair. */
  method BuildContract(points: seq<Measured>, m: Margins) returns (c: Contract)
    ensures c == ContractOf(points, m)
  {
    var sorted := SortBy(points, ByBatch());
    var anchors := seq(|sorted|, i requires 0 <= i < |sorted| => AnchorOf(sorted[i], m));
    var intervals: seq<Interval> := [];
    while |intervals| + 1 < |anchors|
      invariant |intervals| == 0 || |intervals| < |anchors|
      invariant forall j | 0 <= j < |intervals| :: intervals[j] == Between(anchors[j], anchors[j + 1])
      decreases |anchors| - |intervals|
    {
      var i := |intervals|;
      intervals := intervals + [Between(anchors[i], anchors[i + 1])];
    }
    return Contract(anchors, intervals);
  }

  lemma ContractsGrow(points: seq<Measured>, p: Measured)
    ensures forall key :: HasContract(points + [p], key) <==> key == p.contract || HasContract(points, key)
  {
  }

  lemma {:induction false} ContractMembers(points: seq<Measured>, key: ContractKey)
    ensures forall p :: p in InContract(points, key) <==> p in points && p.contract == key
    ensures Distinct(points) ==> Distinct(InContract(points, key))
  {
    if points != [] {
      ContractMembers(points[..|points| - 1], key);
      assert points == points[..|points| - 1] + [points[|points| - 1]];
    }
  }

  lemma NoneInContract(points: seq<Measured>, key: ContractKey)
    ensures HasContract(points, key) || InContract(points, key) == []
  {
  }

  // ---------------------------------------------------------------- selection

  function FindAnchor(anchors: seq<Anchor>, batch: int): Option<Anchor> {
    if anchors == [] then None
    else if anchors[0].batch == batch then Some(anchors[0])
    else FindAnchor(anchors[1..], batch)
  }

  function FindInterval(intervals: seq<Interval>, batch: int): Option<Interval> {
    if intervals == [] then None
    else if intervals[0].min < batch < intervals[0].max then Some(intervals[0])
    else FindInterval(intervals[1..], batch)
  }

  function SelectIn(contract: Contract, batch: int): Decision {
    var anchor := FindAnchor(contract.anchors, batch);
    if anchor.Some? then
      if anchor.value.stable then AutoSelect(anchor.value.mapping) else MeasurementRequired
    else
      var interval := FindInterval(contract.intervals, batch);
      if interval.Some? && interval.value.auto then AutoSelect(interval.value.mapping) else MeasurementRequired
  }

  function Select(model: Model, key: ContractKey, batch: int): Decision {
    if key in model then SelectIn(model[key], batch) else MeasurementRequired
  }

  // -------------------------------------------- what a selection means, on sets

  /** The shapes of one contract have different batches. */
  ghost predicate DistinctBatches(points: seq<Measured>) {
    && Distinct(points)
    && forall p, q | p in points && q in points && p.contract == q.contract && p.batch == q.batch :: p == q
  }

  ghost predicate Neighbours(points: seq<Measured>, key: ContractKey, p: Measured, q: Measured) {
    && p in points && q in points && p.contract == key && q.contract == key && p.batch < q.batch
    && forall r | r in points && r.contract == key :: r.batch <= p.batch || r.batch >= q.batch
  }

  ghost predicate BracketedBy(points: seq<Measured>, m: Margins, key: ContractKey, batch: int, mapping: string,
                              p: Measured, q: Measured) {
    && Neighbours(points, key, p, q) && p.batch < batch < q.batch
    && IsStable(p, m) && IsStable(q, m) && p.winner == mapping == q.winner
  }

  /** The batch lies strictly between neighbouring stable shapes with the same winner. */
  ghost predicate Bracketed(points: seq<Measured>, m: Margins, key: ContractKey, batch: int, mapping: string) {
    exists p, q :: BracketedBy(points, m, key, batch, mapping, p, q)
  }

  ghost predicate Unmeasured(points: seq<Measured>, key: ContractKey, batch: int) {
    forall p | p in points && p.contract == key :: p.batch != batch
  }

  ghost predicate MeasuredStable(points: seq<Measured>, m: Margins, key: ContractKey, batch: int, mapping: string) {
    exists p :: p in points && p.contract == key && p.batch == batch && IsStable(p, m) && p.winner == mapping
  }

  /** The selector decides for a mapping exactly when the batch was measured and stable, or
      was not measured and is bracketed. */
  ghost predicate Supports(points: seq<Measured>, m: Margins, key: ContractKey, batch: int, mapping: string) {
    || MeasuredStable(points, m, key, batch, mapping)
    || (Unmeasured(points, key, batch) && Bracketed(points, m, key, batch, mapping))
  }

  lemma {:induction false} FindIntervalAt(intervals: seq<Interval>, batch: int)
    ensures FindInterval(intervals, batch).None? ==>
              forall i | 0 <= i < |intervals| :: !(intervals[i].min < batch < intervals[i].max)
    ensures FindInterval(intervals, batch).Some? ==>
              exists i :: 0 <= i < |intervals| && intervals[i] == FindInterval(intervals, batch).value
                          && intervals[i].min < batch < intervals[i].max
  {
    if intervals != [] && !(intervals[0].min < batch < intervals[0].max) {
      FindIntervalAt(intervals[1..], batch);
    }
  }

  /** The points of one contract in strictly ascending batch order. */
  ghost predicate Ascending(s: seq<Measured>) {
    forall i, j | 0 <= i < j < |s| :: s[i].batch < s[j].batch
  }

  lemma SortedContract(points: seq<Measured>, key: ContractKey, s: seq<Measured>)
    requires DistinctBatches(points) && s == SortBy(InContract(points, key), ByBatch())
    ensures Ascending(s)
    ensures forall p :: p in s <==> p in points && p.contract == key
  {
    var c := InContract(points, key);
    ContractMembers(points, key);
    SortFacts(c, ByBatch());
    PermutationSize(s, c);
    DistinctPermutation(c, s);
    forall i, j | 0 <= i < j < |s|
      ensures s[i].batch < s[j].batch
    {
      assert ByBatch()(s[i], s[j]);
      assert s[i] in s && s[j] in s;
    }
  }

  lemma NeighboursAdjacent(points: seq<Measured>, key: ContractKey, s: seq<Measured>, i: nat)
    requires Ascending(s) && i + 1 < |s|
    requires forall p :: p in s <==> p in points && p.contract == key
    ensures Neighbours(points, key, s[i], s[i + 1])
  {
  }

  lemma AdjacentNeighbours(points: seq<Measured>, key: ContractKey, s: seq<Measured>, p: Measured, q: Measured)
    returns (i: nat)
    requires Ascending(s) && Neighbours(points, key, p, q)
    requires forall r :: r in s <==> r in points && r.contract == key
    ensures i + 1 < |s| && s[i] == p && s[i + 1] == q
  {
    assert p in s && q in s;
    i :| 0 <= i < |s| && s[i] == p;
    var j :| 0 <= j < |s| && s[j] == q;
    assert i < j;
    assert s[i + 1] in s;
  }

  /** An anchor answers for a measured batch. */
  lemma AnchorMeaning(points: seq<Measured>, m: Margins, key: ContractKey, batch: int, mapping: string,
                      s: seq<Measured>, anchors: seq<Anchor>)
    requires Ascending(s) && forall p :: p in s <==> p in points && p.contract == key
    requires |anchors| == |s| && forall i | 0 <= i < |s| :: anchors[i] == AnchorOf(s[i], m)
    ensures FindAnchor(anchors, batch).None? <==> Unmeasured(points, key, batch)
    ensures var a := FindAnchor(anchors, batch);
      MeasuredStable(points, m, key, batch, mapping) <==> a.Some? && a.value.stable && a.value.mapping == mapping
  {
  }

  /** Bracketed batches are those inside some stable interval. */
  lemma BracketMeaning(points: seq<Measured>, m: Margins, key: ContractKey, batch: int, mapping: string,
                       s: seq<Measured>, i: nat)
    requires Ascending(s) && forall p :: p in s <==> p in points && p.contract == key
    requires i + 1 < |s| && s[i].batch < batch < s[i + 1].batch
    ensures Bracketed(points, m, key, batch, mapping) <==>
              IsStable(s[i], m) && IsStable(s[i + 1], m) && s[i].winner == mapping == s[i + 1].winner
  {
    NeighboursAdjacent(points, key, s, i);
    if Bracketed(points, m, key, batch, mapping) {
      var p, q :| BracketedBy(points, m, key, batch, mapping, p, q);
      var j := AdjacentNeighbours(points, key, s, p, q);
    } else {
      assert !BracketedBy(points, m, key, batch, mapping, s[i], s[i + 1]);
    }
  }

  lemma NotBracketed(points: seq<Measured>, m: Margins, key: ContractKey, batch: int, mapping: string, s: seq<Measured>)
    requires Ascending(s) && forall p :: p in s <==> p in points && p.contract == key
    requires forall i | 0 <= i < |s| - 1 :: !(s[i].batch < batch < s[i + 1].batch)
    ensures !Bracketed(points, m, key, batch, mapping)
  {
    if Bracketed(points, m, key, batch, mapping) {
      var p, q :| BracketedBy(points, m, key, batch, mapping, p, q);
      var j := AdjacentNeighbours(points, key, s, p, q);
    }
  }

  lemma IntervalMeaning(points: seq<Measured>, m: Margins, key: ContractKey, batch: int, mapping: string,
                        s: seq<Measured>, intervals: seq<Interval>)
    requires Ascending(s) && forall p :: p in s <==> p in points && p.contract == key
    requires |intervals| == if s == [] then 0 else |s| - 1
    requires forall i | 0 <= i < |intervals| :: intervals[i] == Between(AnchorOf(s[i], m), AnchorOf(s[i + 1], m))
    ensures var found := FindInterval(intervals, batch);
      Bracketed(points, m, key, batch, mapping) <==> found.Some? && found.value.auto && found.value.mapping == mapping
  {
    FindIntervalAt(intervals, batch);
    var found := FindInterval(intervals, batch);
    if found.Some? {
      var i :| 0 <= i < |intervals| && intervals[i] == found.value && intervals[i].min < batch < intervals[i].max;
      assert intervals[i] == Between(AnchorOf(s[i], m), AnchorOf(s[i + 1], m));
      BracketMeaning(points, m, key, batch, mapping, s, i);
    } else {
      forall i | 0 <= i < |s| - 1
        ensures !(s[i].batch < batch < s[i + 1].batch)
      {
        assert intervals[i] == Between(AnchorOf(s[i], m), AnchorOf(s[i + 1], m));
      }
      NotBracketed(points, m, key, batch, mapping, s);
    }
  }

  lemma NoContractNoSupport(points: seq<Measured>, m: Margins, key: ContractKey, batch: int, mapping: string)
    requires !HasContract(points, key)
    ensures !Supports(points, m, key, batch, mapping)
  {
  }

  lemma SelectInMeaning(points: seq<Measured>, m: Margins, key: ContractKey, batch: int, mapping: string,
                        s: seq<Measured>, c: Contract)
    requires Ascending(s) && forall p :: p in s <==> p in points && p.contract == key
    requires |c.anchors| == |s| && forall i | 0 <= i < |s| :: c.anchors[i] == AnchorOf(s[i], m)
    requires |c.intervals| == if s == [] then 0 else |s| - 1
    requires forall i | 0 <= i < |c.intervals| :: c.intervals[i] == Between(AnchorOf(s[i], m), AnchorOf(s[i + 1], m))
    ensures SelectIn(c, batch) == AutoSelect(mapping) <==> Supports(points, m, key, batch, mapping)
  {
    AnchorMeaning(points, m, key, batch, mapping, s, c.anchors);
    IntervalMeaning(points, m, key, batch, mapping, s, c.intervals);
  }

  lemma ContractMeaning(points: seq<Measured>, m: Margins, key: ContractKey, batch: int, mapping: string, c: Contract)
    requires DistinctBatches(points) && c == ContractOf(InContract(points, key), m)
    ensures SelectIn(c, batch) == AutoSelect(mapping) <==> Supports(points, m, key, batch, mapping)
  {
    var s := SortBy(InContract(points, key), ByBatch());
    SortedContract(points, key, s);
    ContractShape(InContract(points, key), m, s, c);
    SelectInMeaning(points, m, key, batch, mapping, s, c);
  }

  lemma ContractShape(points: seq<Measured>, m: Margins, s: seq<Measured>, c: Contract)
    requires s == SortBy(points, ByBatch()) && c == ContractOf(points, m)
    ensures |c.anchors| == |s| && forall i | 0 <= i < |s| :: c.anchors[i] == AnchorOf(s[i], m)
    ensures |c.intervals| == if s == [] then 0 else |s| - 1
    ensures forall i | 0 <= i < |c.intervals| :: c.intervals[i] == Between(AnchorOf(s[i], m), AnchorOf(s[i + 1], m))
  {
  }

  /** The selector's answer on the model of some points, in terms of the points alone. */
  lemma SelectMeaning(points: seq<Measured>, m: Margins, model: Model, key: ContractKey, batch: int, mapping: string)
    requires DistinctBatches(points) && IsModel(model, points, m)
    ensures Select(model, key, batch) == AutoSelect(mapping) <==> Supports(points, m, key, batch, mapping)
  {
    if key in model {
      ContractMeaning(points, m, key, batch, mapping, model[key]);
    } else {
      NoContractNoSupport(points, m, key, batch, mapping);
    }
  }

  // ------------------------------------------------- leave one batch out

  /** The stable shapes of the contract other than the target. */
  function Peers(points: seq<Measured>, target: nat, m: Margins): seq<Measured>
    requires target < |points|
  {
    StableOf(InContract(points[..target] + points[target + 1..], points[target].contract), m)
  }

  function StableOf(points: seq<Measured>, m: Margins): seq<Measured> {
    if points == [] then []
    else (if IsStable(points[0], m) then [points[0]] else []) + StableOf(points[1..], m)
  }

  lemma {:induction false} StableMembers(points: seq<Measured>, m: Margins)
    ensures forall p :: p in StableOf(points, m) <==> p in points && IsStable(p, m)
    ensures Distinct(points) ==> Distinct(StableOf(points, m))
  {
    if points != [] {
      StableMembers(points[1..], m);
      assert points == [points[0]] + points[1..];
    }
  }

  /** max(lower, key=batch): the last stable batch below. */
  function Nearest(peers: seq<Measured>, batch: int, below: bool): Option<Measured> {
    if peers == [] then None
    else
      var rest, p := Nearest(peers[..|peers| - 1], batch, below), peers[|peers| - 1];
      if (if below then p.batch < batch else p.batch > batch)
         && (rest.None? || if below then p.batch > rest.value.batch else p.batch < rest.value.batch)
      then Some(p) else rest
  }

  lemma {:induction false} NearestFacts(peers: seq<Measured>, batch: int, below: bool)
    ensures var r := Nearest(peers, batch, below);
      && (r.Some? ==> r.value in peers && if below then r.value.batch < batch else r.value.batch > batch)
      && (forall p | p in peers && if below then p.batch < batch else p.batch > batch ::
            r.Some? && if below then p.batch <= r.value.batch else p.batch >= r.value.batch)
  {
    if peers != [] {
      NearestFacts(peers[..|peers| - 1], batch, below);
      assert peers == peers[..|peers| - 1] + [peers[|peers| - 1]];
    }
  }

  predicate Offers(candidates: seq<Candidate>, mapping: string) {
    exists c | c in candidates :: c.mapping == mapping
  }

  function LeaveOneOut(points: seq<Measured>, target: nat, m: Margins): Decision
    requires target < |points|
  {
    var t := points[target];
    var peers := Peers(points, target, m);
    var left, right := Nearest(peers, t.batch, true), Nearest(peers, t.batch, false);
    if t.boundary then MeasurementRequired
    else if left.Some? && right.Some? && left.value.winner == right.value.winner
            && Offers(t.candidates, left.value.winner)
    then AutoSelect(left.value.winner)
    else MeasurementRequired
  }

  /** The records in order, or None when no held-out batch is selected. */
  method EvaluateLeaveOneOut(points: seq<Measured>, m: Margins) returns (records: Option<seq<Decision>>)
    ensures records.Some? <==> exists i :: 0 <= i < |points| && LeaveOneOut(points, i, m).AutoSelect?
    ensures records.Some? ==> |records.value| == |points|
    ensures records.Some? ==> forall i | 0 <= i < |points| :: records.value[i] == LeaveOneOut(points, i, m)
  {
    var decided: seq<Decision> := [];
    var selected := 0;
    for i := 0 to |points|
      invariant |decided| == i && forall j | 0 <= j < i :: decided[j] == LeaveOneOut(points, j, m)
      invariant selected > 0 <==> exists j :: 0 <= j < i && LeaveOneOut(points, j, m).AutoSelect?
      invariant selected >= 0
    {
      var decision := LeaveOneOut(points, i, m);
      decided := decided + [decision];
      if decision.AutoSelect? {
        selected := selected + 1;
      }
    }
    return if selected == 0 then None else Some(decided);
  }

  lemma PeersFacts(points: seq<Measured>, target: nat, m: Margins)
    requires DistinctBatches(points) && target < |points|
    ensures var peers, t := Peers(points, target, m), points[target];
      && (forall p :: p in peers <==> p in points && p != t && p.contract == t.contract && IsStable(p, m))
      && DistinctBatches(peers)
  {
    var t := points[target];
    var others := points[..target] + points[target + 1..];
    assert points == points[..target] + [t] + points[target + 1..];
    forall p
      ensures p in others <==> p in points && p != t
    {
    }
    assert Distinct(others);
    ContractMembers(others, t.contract);
    StableMembers(InContract(others, t.contract), m);
  }

  /** The evaluation holds the selector to its own standard: a held-out batch is auto-selected
      exactly when the model built from the contract's other stable shapes selects that mapping,
      the target is no evidence boundary and offers the mapping. */
  lemma LeaveOneOutMatchesSelect(points: seq<Measured>, target: nat, m: Margins, model: Model, mapping: string)
    requires DistinctBatches(points) && target < |points| && IsModel(model, Peers(points, target, m), m)
    ensures var t := points[target];
      LeaveOneOut(points, target, m) == AutoSelect(mapping) <==>
        && Select(model, t.contract, t.batch) == AutoSelect(mapping)
        && !t.boundary && Offers(t.candidates, mapping)
  {
    var t, peers := points[target], Peers(points, target, m);
    PeersFacts(points, target, m);
    SelectMeaning(peers, m, model, t.contract, t.batch, mapping);
    TargetUnmeasured(points, target, m, mapping);
    NearestBracket(peers, m, t.contract, t.batch, mapping);
  }

  lemma TargetUnmeasured(points: seq<Measured>, target: nat, m: Margins, mapping: string)
    requires DistinctBatches(points) && target < |points|
    ensures var peers, t := Peers(points, target, m), points[target];
      Unmeasured(peers, t.contract, t.batch) && !MeasuredStable(peers, m, t.contract, t.batch, mapping)
  {
    PeersFacts(points, target, m);
    assert points[target] in points;
  }

  /** The nearest stable shapes on both sides are the only bracket there can be. */
  lemma NearestBracket(peers: seq<Measured>, m: Margins, key: ContractKey, batch: int, mapping: string)
    requires DistinctBatches(peers) && Unmeasured(peers, key, batch)
    requires forall p | p in peers :: p.contract == key && IsStable(p, m)
    ensures var left, right := Nearest(peers, batch, true), Nearest(peers, batch, false);
      Bracketed(peers, m, key, batch, mapping) <==>
        left.Some? && right.Some? && left.value.winner == mapping == right.value.winner
  {
    var left, right := Nearest(peers, batch, true), Nearest(peers, batch, false);
    NearestFacts(peers, batch, true);
    NearestFacts(peers, batch, false);
    if Bracketed(peers, m, key, batch, mapping) {
      var p, q :| BracketedBy(peers, m, key, batch, mapping, p, q);
      assert left.value == p && right.value == q;
    }
    if left.Some? && right.Some? && left.value.winner == mapping == right.value.winner {
      assert BracketedBy(peers, m, key, batch, mapping, left.value, right.value);
    }
  }

  /** Unstable shapes only make the selector abstain: whatever the full model selects, the model of
      the stable shapes alone selects too. */
  lemma FullModelIsMoreCautious(
    points: seq<Measured>, m: Margins, full: Model, stable: Model, key: ContractKey, batch: int, mapping: string)
    requires DistinctBatches(points) && IsModel(full, points, m) && IsModel(stable, StableOf(points, m), m)
    requires Select(full, key, batch) == AutoSelect(mapping)
    ensures Select(stable, key, batch) == AutoSelect(mapping)
  {
    SelectMeaning(points, m, full, key, batch, mapping);
    StableDistinct(points, m);
    SelectMeaning(StableOf(points, m), m, stable, key, batch, mapping);
    StableSupports(points, m, key, batch, mapping);
  }

  lemma StableDistinct(points: seq<Measured>, m: Margins)
    requires DistinctBatches(points)
    ensures DistinctBatches(StableOf(points, m))
  {
    StableMembers(points, m);
  }

  lemma StableSupports(points: seq<Measured>, m: Margins, key: ContractKey, batch: int, mapping: string)
    requires Supports(points, m, key, batch, mapping)
    ensures Supports(StableOf(points, m), m, key, batch, mapping)
  {
    StableMembers(points, m);
    if MeasuredStable(points, m, key, batch, mapping) {
      assert MeasuredStable(StableOf(points, m), m, key, batch, mapping);
    } else {
      var p, q :| BracketedBy(points, m, key, batch, mapping, p, q);
      assert BracketedBy(StableOf(points, m), m, key, batch, mapping, p, q);
    }
  }
}
