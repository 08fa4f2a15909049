/** A trace that passes every check of the checker although the overlap it reports for an edge exceeds
    the time during which both factors ran. */
module TraceWitness {
  import opened Sorting
  import opened FactorPartition
  import opened KernelName
  import opened FactorTrace
  import IntervalOverlap

  /** All launches are of one group. */
  ghost predicate OfGroup(rows: seq<Launch>, total: nat, log: nat, done: nat) {
    rows != [] && forall row | row in rows :: NamesGroup(row.name, total, log, done)
  }

  lemma ThreeSums(factors: seq<int>)
    requires |factors| == 3
    ensures Sum(factors[..0]) == 0 && Sum(factors[..1]) == factors[0] && Sum(factors[..2]) == factors[0] + factors[1]
    ensures Sum(factors) == factors[0] + factors[1] + factors[2]
  {
    PartialSum(factors, 0);
    PartialSum(factors, 1);
    PartialSum(factors, 2);
    assert factors[..3] == factors;
  }

  /** The launches of a three-factor transform, factor after factor. */
  ghost predicate InTurn(a: seq<Launch>, b: seq<Launch>, c: seq<Launch>, factors: seq<int>, total: nat) {
    && |factors| == 3 && AllAtLeastOne(factors) && Sum(factors) == total
    && OfGroup(a, total, factors[0], 0) && OfGroup(b, total, factors[1], factors[0])
    && OfGroup(c, total, factors[2], factors[0] + factors[1])
  }

  lemma NamesAll(rows: seq<Launch>, factors: seq<int>, total: nat, i: nat)
    requires i < |factors| && factors[i] >= 0 && Sum(factors[..i]) >= 0
    requires OfGroup(rows, total, factors[i], Sum(factors[..i]))
    ensures HasLaunch(rows, factors, total, i) && forall row | row in rows :: IsLaunchOf(row, factors, total)
  {
    forall row | row in rows
      ensures NamesFactor(row.name, factors, total, i)
    {
    }
    assert rows[0] in rows;
  }

  lemma HasLaunchGrows(x: seq<Launch>, rows: seq<Launch>, factors: seq<int>, total: nat, i: nat)
    requires i < |factors| && HasLaunch(x, factors, total, i) && forall row | row in x :: row in rows
    ensures HasLaunch(rows, factors, total, i)
  {
    var row :| row in x && NamesFactor(row.name, factors, total, i);
    assert row in rows;
  }

  lemma AllOfThree(a: seq<Launch>, b: seq<Launch>, c: seq<Launch>, p: Launch -> bool)
    requires (forall row | row in a :: p(row)) && (forall row | row in b :: p(row)) && forall row | row in c :: p(row)
    ensures forall row | row in a + b + c :: p(row)
  {
  }

  lemma NamedTogether(a: seq<Launch>, b: seq<Launch>, c: seq<Launch>, factors: seq<int>, total: nat)
    requires forall row | row in a :: IsLaunchOf(row, factors, total)
    requires forall row | row in b :: IsLaunchOf(row, factors, total)
    requires forall row | row in c :: IsLaunchOf(row, factors, total)
    ensures forall row | row in a + b + c :: IsLaunchOf(row, factors, total)
  {
    AllOfThree(a, b, c, row => IsLaunchOf(row, factors, total));
  }

  lemma LaunchedTogether(a: seq<Launch>, b: seq<Launch>, c: seq<Launch>, factors: seq<int>, total: nat)
    requires |factors| == 3
    requires HasLaunch(a, factors, total, 0) && HasLaunch(b, factors, total, 1) && HasLaunch(c, factors, total, 2)
    ensures forall i: nat | i < |factors| :: HasLaunch(a + b + c, factors, total, i)
  {
    HasLaunchGrows(a, a + b + c, factors, total, 0);
    HasLaunchGrows(b, a + b + c, factors, total, 1);
    HasLaunchGrows(c, a + b + c, factors, total, 2);
  }

  lemma InTurnIsLaunchesOf(a: seq<Launch>, b: seq<Launch>, c: seq<Launch>, factors: seq<int>, total: nat)
    requires InTurn(a, b, c, factors, total)
    ensures LaunchesOf(a + b + c, factors, total)
  {
    ThreeSums(factors);
    NamesAll(a, factors, total, 0);
    NamesAll(b, factors, total, 1);
    NamesAll(c, factors, total, 2);
    NamedTogether(a, b, c, factors, total);
    LaunchedTogether(a, b, c, factors, total);
  }

  lemma AnnotatedConcat(x: seq<Launch>, y: seq<Launch>)
    ensures Annotated(x + y) == Annotated(x) + Annotated(y)
  {
    forall i | 0 <= i < |x + y|
      ensures Annotated(x + y)[i] == (Annotated(x) + Annotated(y))[i]
    {
    }
  }

  lemma RowsOfThree(a: seq<Launch>, b: seq<Launch>, c: seq<Launch>, key: Key)
    ensures RowsOf(Annotated(a + b + c), key) ==
            RowsOf(Annotated(a), key) + RowsOf(Annotated(b), key) + RowsOf(Annotated(c), key)
  {
    AnnotatedConcat(a, b);
    AnnotatedConcat(a + b, c);
    RowsOfConcat(Annotated(a), Annotated(b), key);
    RowsOfConcat(Annotated(a + b), Annotated(c), key);
  }

  /** One group's rows among those of all three. */
  lemma GroupAmong(a: seq<Launch>, b: seq<Launch>, c: seq<Launch>, factors: seq<int>, total: nat, key: Key)
    requires InTurn(a, b, c, factors, total)
    ensures RowsOf(Annotated(a + b + c), key) ==
            (if key == Key(0, factors[0]) then a else []) + (if key == Key(factors[0], factors[1]) then b else [])
            + (if key == Key(factors[0] + factors[1], factors[2]) then c else [])
  {
    ReadsAs(a, total, factors[0], 0, key);
    ReadsAs(b, total, factors[1], factors[0], key);
    ReadsAs(c, total, factors[2], factors[0] + factors[1], key);
    RowsOfThree(a, b, c, key);
  }

  lemma ReadsAs(rows: seq<Launch>, total: nat, log: nat, done: nat, key: Key)
    requires OfGroup(rows, total, log, done)
    ensures RowsOf(Annotated(rows), key) == if key == Key(done, log) then rows else []
  {
    forall i | 0 <= i < |rows|
      ensures Annotated(rows)[i] == Traced(rows[i], Parameters(total, log, done))
    {
      assert rows[i] in rows;
      NameReadsBack(rows[i].name, total, log, done);
    }
    RowsOfUniform(Annotated(rows), rows, Parameters(total, log, done), key);
  }

  lemma KeysInTurn(factors: seq<int>)
    requires |factors| == 3
    ensures KeysOf(factors, 0) ==
            [Key(0, factors[0]), Key(factors[0], factors[1]), Key(factors[0] + factors[1], factors[2])]
  {
    ThreeSums(factors);
    KeysOfAt(factors, 0, 0);
    KeysOfAt(factors, 0, 1);
    KeysOfAt(factors, 0, 2);
    ThreeKeys(KeysOf(factors, 0));
  }

  lemma ThreeKeys(keys: seq<Key>)
    requires |keys| == 3
    ensures keys == [keys[0], keys[1], keys[2]]
  {
  }

  lemma ThreeGroups(rows: seq<Traced>, keys: seq<Key>, a: seq<Launch>, b: seq<Launch>, c: seq<Launch>)
    requires |keys| == 3
    requires RowsOf(rows, keys[0]) == a && RowsOf(rows, keys[1]) == b && RowsOf(rows, keys[2]) == c
    ensures GroupsOf(rows, keys) == [a, b, c]
  {
  }

  lemma GroupsInTurn(a: seq<Launch>, b: seq<Launch>, c: seq<Launch>, factors: seq<int>, total: nat)
    requires InTurn(a, b, c, factors, total)
    ensures GroupsOf(Annotated(a + b + c), KeysOf(factors, 0)) == [a, b, c]
  {
    var x, y, z := Key(0, factors[0]), Key(factors[0], factors[1]), Key(factors[0] + factors[1], factors[2]);
    KeysInTurn(factors);
    GroupAmong(a, b, c, factors, total, x);
    GroupAmong(a, b, c, factors, total, y);
    GroupAmong(a, b, c, factors, total, z);
    ThreeGroups(Annotated(a + b + c), [x, y, z], a, b, c);
  }

  lemma TracesInTurn(a: seq<Launch>, b: seq<Launch>, c: seq<Launch>, factors: seq<int>, total: nat, slices: nat)
    requires InTurn(a, b, c, factors, total) && Complete([a, b, c], slices)
    ensures Traces(Annotated(a + b + c), slices, KeysOf(factors, 0), total)
  {
    InTurnIsLaunchesOf(a, b, c, factors, total);
    LaunchesHaveKeys(a + b + c, factors, total);
    GroupsInTurn(a, b, c, factors, total);
  }

  // --- the example

  /** Four slices of the first factor; the second and third run inside each other. */
  function First(name: string): seq<Launch> {
    [Launch(0, 10, 1, name), Launch(5, 30, 2, name), Launch(6, 25, 3, name), Launch(7, 8, 4, name)]
  }

  /** Every slice of the second factor waits for its own slice of the first. */
  function Second(name: string): seq<Launch> {
    [Launch(10, 40, 1, name), Launch(30, 41, 2, name), Launch(30, 42, 3, name), Launch(30, 43, 4, name)]
  }

  function Last(name: string): seq<Launch> {
    [Launch(50, 60, 1, name)]
  }

  lemma NothingViolated(x: string, y: string, z: string, v: Dependency)
    ensures Complete([First(x), Second(y), Last(z)], 4) && !Violates([First(x), Second(y), Last(z)], 4, v)
  {
    if v.edge == 1 && v.invocation == 0 {
      var k := LastEndIsMax([First(x), Second(y), Last(z)], 4, 0, 1, 4);
    }
  }

  lemma FourDrops(s: seq<IntervalOverlap.Interval>, t: seq<IntervalOverlap.Interval>)
    requires |s| == 4 && t != [] && forall i | 0 <= i < 4 :: s[i].end <= t[0].end
    ensures IntervalOverlap.Sweep(s, t) == IntervalOverlap.Shared(s[0], t[0]) + IntervalOverlap.Shared(s[1], t[0])
                                           + IntervalOverlap.Shared(s[2], t[0]) + IntervalOverlap.Shared(s[3], t[0])
  {
    var r1, r2, r3 := s[1..], s[2..], s[3..];
    assert s == [s[0]] + r1 && r1 == [s[1]] + r2 && r2 == [s[2]] + r3 && r3 == [s[3]] + [];
    IntervalOverlap.SweepDrop(s[3], [], t);
    IntervalOverlap.SweepDrop(s[2], r3, t);
    IntervalOverlap.SweepDrop(s[1], r2, t);
    IntervalOverlap.SweepDrop(s[0], r1, t);
  }

  lemma ReportedAmount(x: string, y: string)
    ensures IntervalOverlap.Sweep(Spans(First(x)), Spans(Second(y))) == 35
  {
    FourDrops(Spans(First(x)), Spans(Second(y)));
  }

  lemma TrueAmount(x: string, y: string)
    ensures IntervalOverlap.SharedTime(Spans(First(x)), Spans(Second(y))) <= 20
  {
    IntervalOverlap.SharedWithin(Spans(First(x)), Spans(Second(y)), 10, 30);
  }

  lemma NothingReported(x: string, y: string, z: string, r: Report)
    requires r.Report? && Complete([First(x), Second(y), Last(z)], 4)
    requires Describes(r, [First(x), Second(y), Last(z)], 4)
    ensures r.violations == [] && |r.overlaps| == 2
    ensures r.overlaps[0] == IntervalOverlap.Sweep(Spans(First(x)), Spans(Second(y)))
  {
    var groups := [First(x), Second(y), Last(z)];
    forall v
      ensures !Violates(groups, 4, v)
    {
      NothingViolated(x, y, z, v);
    }
    Emptiness(r.violations, v => Violates(groups, 4, v));
    assert r.overlaps[0] == EdgeOverlap(groups, 0);
  }

  lemma ExampleSorted(x: string, y: string, z: string)
    ensures SortedLaunches(First(x) + Second(y) + Last(z))
  {
  }

  /** Whatever names the launches of a three-factor transform carry: the checker accepts this trace with
      four slices, finds no violation and reports 35 nanoseconds of overlap for the first edge, although both
      factors run for at most 20. */
  lemma AcceptedTraceOvercounts(x: string, y: string, z: string, factors: seq<int>, total: nat, r: Report)
    requires InTurn(First(x), Second(y), Last(z), factors, total)
    requires r.Report? && Complete([First(x), Second(y), Last(z)], 4)
    requires Describes(r, [First(x), Second(y), Last(z)], 4)
    ensures var rows, keys := First(x) + Second(y) + Last(z), KeysOf(factors, 0);
      && SortedLaunches(rows) && Traces(Annotated(rows), 4, keys, total)
      && GroupsOf(Annotated(rows), keys) == [First(x), Second(y), Last(z)]
    ensures r.violations == [] && |r.overlaps| == 2 && r.overlaps[0] == 35
    ensures IntervalOverlap.SharedTime(Spans(First(x)), Spans(Second(y))) <= 20
  {
    var a, b, c := First(x), Second(y), Last(z);
    TracesInTurn(a, b, c, factors, total, 4);
    GroupsInTurn(a, b, c, factors, total);
    ExampleSorted(x, y, z);
    NothingReported(x, y, z, r);
    ReportedAmount(x, y);
    TrueAmount(x, y);
  }

  /** Such a transform exists: 2^18 points in factors of 2^6, with any prefix, type and further arguments in
      its demangled names. */
  lemma ExampleNames(pre: string, first: string, rest: seq<string>, post: string)
    returns (x: string, y: string, z: string)
    requires IsArgument(first) && AllArguments(rest) && |rest| >= 5
    requires forall i | 0 <= i < |pre| :: pre[i] != 'f'
    ensures InTurn(First(x), Second(y), Last(z), [6, 6, 6], 18)
    ensures x == DemangledKernel(pre, first, 18, 6, 0, rest, post)
  {
    x := DemangledKernel(pre, first, 18, 6, 0, rest, post);
    y := DemangledKernel(pre, first, 18, 6, 6, rest, post);
    z := DemangledKernel(pre, first, 18, 6, 12, rest, post);
    DemangledKernelNamesGroup(pre, first, 18, 6, 0, rest, post);
    DemangledKernelNamesGroup(pre, first, 18, 6, 6, rest, post);
    DemangledKernelNamesGroup(pre, first, 18, 6, 12, rest, post);
    SixTwelve();
    OneName(x, y, z);
  }

  lemma SixTwelve()
    ensures AllAtLeastOne([6, 6, 6]) && Sum([6, 6, 6]) == 18
  {
    ThreeSums([6, 6, 6]);
  }

  lemma OneName(x: string, y: string, z: string)
    requires NamesGroup(x, 18, 6, 0) && NamesGroup(y, 18, 6, 6) && NamesGroup(z, 18, 6, 12)
    ensures OfGroup(First(x), 18, 6, 0) && OfGroup(Second(y), 18, 6, 6) && OfGroup(Last(z), 18, 6, 12)
  {
    assert forall row | row in First(x) :: row.name == x;
    assert forall row | row in Second(y) :: row.name == y;
    assert forall row | row in Last(z) :: row.name == z;
  }
}
