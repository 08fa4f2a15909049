/** What a report of the trace checker says, on the launches themselves. */
module TraceMeaning {
  import opened Sorting
  import opened FactorPartition
  import opened FactorTrace
  import opened KernelName
  import Sets
  import opened TraceWitness
  import IntervalOverlap

  // --- which traces are accepted

  /** The name of this row carries the coordinate. */
  predicate Carries(row: Launch, key: Key) {
    var shape := Read(row.name);
    shape.Parameters? && shape.done == key.done && shape.log == key.log
  }

  /** The group consists of the rows that carry the coordinate, in the order of the trace. */
  ghost predicate PicksOut(rows: seq<Launch>, key: Key, group: seq<Launch>, places: seq<nat>) {
    && |places| == |group| && (forall a, b | 0 <= a < b < |places| :: places[a] < places[b])
    && (forall a | 0 <= a < |places| :: places[a] < |rows|)
    && (forall a | 0 <= a < |places| :: Carries(rows[places[a]], key) && group[a] == rows[places[a]])
    && forall i: nat | i < |rows| && Carries(rows[i], key) :: i in places
  }

  /** The same before the names are read again. */
  ghost predicate PicksTraced(traced: seq<Traced>, key: Key, group: seq<Launch>, places: seq<nat>) {
    && |places| == |group| && (forall a, b | 0 <= a < b < |places| :: places[a] < places[b])
    && (forall a | 0 <= a < |places| :: places[a] < |traced|)
    && (forall a | 0 <= a < |places| :: HasKey(traced[places[a]], key) && group[a] == traced[places[a]].launch)
    && forall i: nat | i < |traced| && HasKey(traced[i], key) :: i in places
  }

  lemma PickedNext(traced: seq<Traced>, row: Traced, key: Key, group: seq<Launch>, places: seq<nat>)
    requires PicksTraced(traced, key, group, places) && HasKey(row, key)
    ensures PicksTraced(traced + [row], key, group + [row.launch], places + [|traced|])
  {
    var now: seq<nat> := places + [|traced|];
    assert now[|places|] == |traced|;
    forall i: nat | i <= |traced| && HasKey((traced + [row])[i], key)
      ensures i in now
    {
      assert i in places || i == |traced|;
    }
  }

  lemma PickedSame(traced: seq<Traced>, row: Traced, key: Key, group: seq<Launch>, places: seq<nat>)
    requires PicksTraced(traced, key, group, places) && !HasKey(row, key)
    ensures PicksTraced(traced + [row], key, group, places)
  {
  }

  lemma {:induction false} RowsPickedOut(traced: seq<Traced>, key: Key) returns (places: seq<nat>)
    ensures PicksTraced(traced, key, RowsOf(traced, key), places)
  {
    places := [];
    if traced != [] {
      var before, row := traced[..|traced| - 1], traced[|traced| - 1];
      assert traced == before + [row];
      places := RowsPickedOut(before, key);
      if HasKey(row, key) {
        PickedNext(before, row, key, RowsOf(before, key), places);
        places := places + [|before|];
      } else {
        PickedSame(before, row, key, RowsOf(before, key), places);
      }
    }
  }

  /** Each group of an accepted trace. */
  lemma GroupPicksOut(rows: seq<Launch>, keys: seq<Key>, e: nat) returns (places: seq<nat>)
    requires e < |keys|
    ensures PicksOut(rows, keys[e], GroupsOf(Annotated(rows), keys)[e], places)
  {
    places := RowsPickedOut(Annotated(rows), keys[e]);
    PickedMeans(rows, keys[e], GroupsOf(Annotated(rows), keys)[e], places);
  }

  lemma PickedMeans(rows: seq<Launch>, key: Key, group: seq<Launch>, places: seq<nat>)
    requires PicksTraced(Annotated(rows), key, group, places)
    ensures PicksOut(rows, key, group, places)
  {
    forall i: nat | i < |rows|
      ensures HasKey(Annotated(rows)[i], key) <==> Carries(rows[i], key)
    {
    }
  }

  ghost predicate CarriedBySome(rows: seq<Launch>, key: Key) {
    exists i :: 0 <= i < |rows| && Carries(rows[i], key)
  }

  /** The coordinates the names carry, ascending, follow each other without a gap from 0 to the transform. */
  ghost predicate CoverTransform(rows: seq<Launch>, keys: seq<Key>, total: int) {
    && |keys| >= 2 && (forall k :: k in keys <==> CarriedBySome(rows, k))
    && (forall i, j | 0 <= i < j < |keys| ::
          keys[i].done < keys[j].done || (keys[i].done == keys[j].done && keys[i].log < keys[j].log))
    && keys[0].done == 0 && keys[|keys| - 1].done + keys[|keys| - 1].log == total
    && forall i | 0 <= i < |keys| - 1 :: keys[i + 1].done == keys[i].done + keys[i].log
  }

  /** One final launch an invocation, and for every other factor one a slice. */
  ghost predicate FullTrace(groups: Groups, slices: int, count: nat) {
    && slices >= 2 && |groups| >= 2 && |groups[|groups| - 1]| == count
    && forall e | 0 <= e < |groups| - 1 :: |groups[e]| == count * slices
  }

  lemma ChainMeans(keys: seq<Key>, total: int)
    ensures ChainOk(keys, total) <==>
      && |keys| >= 2 && keys[0].done == 0 && keys[|keys| - 1].done + keys[|keys| - 1].log == total
      && forall i | 0 <= i < |keys| - 1 :: keys[i + 1].done == keys[i].done + keys[i].log
  {
    if |keys| >= 2 && keys[0].done == 0
       && forall i | 0 <= i < |keys| - 1 :: keys[i].done + keys[i].log == keys[i + 1].done {
      ChainFrom(keys, 0);
      var logs, last := Logs(keys), |keys| - 1;
      KeysOfAt(logs, 0, last);
      PartialSum(logs, last);
      assert logs[..last + 1] == logs;
    }
  }

  lemma KeysMean(rows: seq<Launch>, keys: seq<Key>)
    ensures TraceKeys(Annotated(rows), keys) <==>
      && (forall k :: k in keys <==> CarriedBySome(rows, k))
      && forall i, j | 0 <= i < j < |keys| ::
           keys[i].done < keys[j].done || (keys[i].done == keys[j].done && keys[i].log < keys[j].log)
  {
    forall k
      ensures Occurs(Annotated(rows), k) <==> CarriedBySome(rows, k)
    {
      OccursMeans(rows, k);
    }
    forall i, j | 0 <= i < j < |keys|
      ensures KeyBefore()(keys[i], keys[j]) <==>
              keys[i].done < keys[j].done || (keys[i].done == keys[j].done && keys[i].log < keys[j].log)
    {
    }
  }

  lemma OccursMeans(rows: seq<Launch>, key: Key)
    ensures Occurs(Annotated(rows), key) <==> CarriedBySome(rows, key)
  {
    var traced := Annotated(rows);
    if Occurs(traced, key) {
      var row :| row in traced && HasKey(row, key);
      var i :| 0 <= i < |traced| && traced[i] == row;
      assert Carries(rows[i], key);
    }
    if CarriedBySome(rows, key) {
      var i :| 0 <= i < |rows| && Carries(rows[i], key);
      assert traced[i] in traced && HasKey(traced[i], key);
    }
  }

  lemma TotalMeans(rows: seq<Launch>, total: int)
    ensures TraceTotal(Annotated(rows), total) <==> forall row | row in rows ::
      !Read(row.name).Malformed? && (Read(row.name).Parameters? ==> Read(row.name).total == total)
  {
    var traced := Annotated(rows);
    if TraceTotal(traced, total) {
      forall row | row in rows
        ensures !Read(row.name).Malformed? && (Read(row.name).Parameters? ==> Read(row.name).total == total)
      {
        var i :| 0 <= i < |rows| && rows[i] == row;
        assert traced[i] in traced;
      }
    } else {
      var row :| row in traced && !(!row.shape.Malformed? && (row.shape.Parameters? ==> row.shape.total == total));
      var i :| 0 <= i < |traced| && traced[i] == row;
      assert rows[i] in rows;
    }
  }

  /** What the checker accepts: names that agree on one transform, whose coordinates cover it, with all launches. */
  lemma AcceptedMeans(rows: seq<Launch>, slices: int, keys: seq<Key>, total: int)
    ensures Traces(Annotated(rows), slices, keys, total) <==>
      && (forall row | row in rows ::
            !Read(row.name).Malformed? && (Read(row.name).Parameters? ==> Read(row.name).total == total))
      && CoverTransform(rows, keys, total)
      && exists count :: FullTrace(GroupsOf(Annotated(rows), keys), slices, count)
  {
    TotalMeans(rows, total);
    ChainMeans(keys, total);
    KeysMean(rows, keys);
    CompleteMeans(GroupsOf(Annotated(rows), keys), slices);
  }

  lemma CompleteMeans(groups: Groups, slices: int)
    ensures Complete(groups, slices) <==> exists count :: FullTrace(groups, slices, count)
  {
    if Complete(groups, slices) {
      assert FullTrace(groups, slices, |groups[|groups| - 1]|);
    }
  }

  // --- what is reported about them

  /** The launches of a factor in one invocation. */
  function Producer(group: seq<Launch>, slices: nat, inv: nat): seq<Launch>
    requires inv * slices <= (inv + 1) * slices <= |group|
  {
    group[inv * slices..(inv + 1) * slices]
  }

  ghost predicate SomeEndsAfter(rows: seq<Launch>, time: int) {
    exists row :: row in rows && row.end > time
  }

  lemma InvocationFits(inv: nat, count: nat, slices: nat)
    requires inv < count
    ensures inv * slices + slices == (inv + 1) * slices <= count * slices
  {
    assert (count - inv - 1) * slices >= 0;
    assert count * slices == (inv + 1) * slices + (count - inv - 1) * slices;
  }

  lemma LastEndMeans(groups: Groups, slices: nat, inv: nat, e: nat, time: int)
    requires Complete(groups, slices) && e < |groups| - 1 && inv < |groups[|groups| - 1]|
    ensures inv * slices <= (inv + 1) * slices <= |groups[e]|
    ensures time < LastEnd(groups, slices, inv, e, slices) <==> SomeEndsAfter(Producer(groups[e], slices, inv), time)
  {
    InvocationFits(inv, |groups[|groups| - 1]|, slices);
    var producer := Producer(groups[e], slices, inv);
    var k := LastEndIsMax(groups, slices, inv, e, slices);
    forall j: nat | j < slices
      ensures producer[j] == SliceOf(groups, slices, inv, e, j)
    {
    }
    assert producer[k] in producer;
    if SomeEndsAfter(producer, time) {
      var row :| row in producer && row.end > time;
      var j: nat :| j < |producer| && producer[j] == row;
      assert SliceOf(groups, slices, inv, e, j).end <= LastEnd(groups, slices, inv, e, slices);
    }
  }

  /** The consumer launch v.slot of this edge starts before what it waits for: in front of the final launch any
      slice of the producer, elsewhere its own slice. */
  ghost predicate StartsTooSoon(groups: Groups, slices: nat, v: Dependency) {
    var n, at := |groups|, v.invocation * slices + v.slot;
    && n >= 2 && v.edge < n - 1 && v.invocation < |groups[n - 1]|
    && if v.edge == n - 2 then
         && v.slot == 0 && v.invocation * slices <= (v.invocation + 1) * slices <= |groups[v.edge]|
         && SomeEndsAfter(Producer(groups[v.edge], slices, v.invocation), groups[n - 1][v.invocation].start)
       else
         && v.slot < slices && at < |groups[v.edge]| && at < |groups[v.edge + 1]|
         && groups[v.edge + 1][at].start < groups[v.edge][at].end
  }

  /** A launch of a factor that is neither first nor final starts while some slice of the factor before it, in the
      same invocation, has not ended. */
  ghost predicate StartsInside(groups: Groups, slices: nat, v: Dependency) {
    var n, at := |groups|, v.invocation * slices + v.slot;
    && n >= 2 && v.edge < n - 2 && v.invocation < |groups[n - 1]|
    && v.slot < slices && at < |groups[v.edge + 1]|
    && v.invocation * slices <= (v.invocation + 1) * slices <= |groups[v.edge]|
    && SomeEndsAfter(Producer(groups[v.edge], slices, v.invocation), groups[v.edge + 1][at].start)
  }

  lemma ViolatesMeans(groups: Groups, slices: nat, v: Dependency)
    requires Complete(groups, slices)
    ensures Violates(groups, slices, v) <==> StartsTooSoon(groups, slices, v)
  {
    var n := |groups|;
    if v.edge < n - 1 && v.invocation < |groups[n - 1]| {
      if v.edge == n - 2 {
        LastEndMeans(groups, slices, v.invocation, v.edge, Final(groups, v.invocation).start);
      } else if v.slot < slices {
        SliceIndex(v.invocation, |groups[n - 1]|, slices, v.slot);
      }
    }
  }

  lemma EarlyMeans(groups: Groups, slices: nat, v: Dependency)
    requires Complete(groups, slices)
    ensures StartsEarly(groups, slices, v) <==> StartsInside(groups, slices, v)
  {
    var n := |groups|;
    if v.edge < n - 2 && v.invocation < |groups[n - 1]| && v.slot < slices {
      SliceIndex(v.invocation, |groups[n - 1]|, slices, v.slot);
      LastEndMeans(groups, slices, v.invocation, v.edge,
                   SliceOf(groups, slices, v.invocation, v.edge + 1, v.slot).start);
    }
  }

  /** Some launch runs at this time. */
  ghost predicate RunsAt(rows: seq<Launch>, time: int) {
    exists row :: row in rows && row.start <= time < row.end
  }

  /** At some time a launch of either factor runs. */
  ghost predicate BothRun(producer: seq<Launch>, consumer: seq<Launch>) {
    exists time: int :: RunsAt(producer, time) && RunsAt(consumer, time)
  }

  lemma CoveredMeans(rows: seq<Launch>, time: int)
    ensures time in IntervalOverlap.Covered(Spans(rows)) <==> RunsAt(rows, time)
  {
    IntervalOverlap.CoveredMember(Spans(rows), time);
    if RunsAt(rows, time) {
      var row :| row in rows && row.start <= time < row.end;
      var i :| 0 <= i < |rows| && rows[i] == row;
      assert Spans(rows)[i].start <= time < Spans(rows)[i].end;
    }
  }

  lemma TogetherMeans(producer: seq<Launch>, consumer: seq<Launch>)
    ensures RunTogether(producer, consumer) <==> BothRun(producer, consumer)
  {
    var common := IntervalOverlap.Covered(Spans(producer)) * IntervalOverlap.Covered(Spans(consumer));
    forall time: int
      ensures time in common <==> RunsAt(producer, time) && RunsAt(consumer, time)
    {
      CoveredMeans(producer, time);
      CoveredMeans(consumer, time);
    }
    if RunTogether(producer, consumer) {
      var time := Sets.Pick(common);
    }
  }

  /** No launch starts too soon, some launch starts inside its producer, and at some time two factors that follow
      each other both run. */
  ghost predicate OverlapsAsOrdered(groups: Groups, slices: nat) {
    && (forall v :: !StartsTooSoon(groups, slices, v))
    && (exists v :: StartsInside(groups, slices, v))
    && exists e :: 0 <= e < |groups| - 1 && BothRun(groups[e], groups[e + 1])
  }

  lemma GroupsSorted(rows: seq<Launch>, keys: seq<Key>)
    requires SortedLaunches(rows)
    ensures forall e | 0 <= e < |keys| :: SortedLaunches(GroupsOf(Annotated(rows), keys)[e])
  {
    forall e | 0 <= e < |keys|
      ensures SortedLaunches(GroupsOf(Annotated(rows), keys)[e])
    {
      RowsOfSorted(rows, |rows|, keys[e]);
      assert Annotated(rows)[..|rows|] == Annotated(rows);
    }
  }

  /** A report on these groups, launch by launch. */
  ghost predicate Reports(r: Report, groups: Groups, slices: nat)
    requires r.Report?
  {
    && |r.streams| == |groups|
    && (forall e, s: int | 0 <= e < |groups| ::
          s in r.streams[e] <==> exists row :: row in groups[e] && row.stream == s)
    && (forall v :: v in r.violations <==> StartsTooSoon(groups, slices, v))
    && (forall v :: v in r.early <==> StartsInside(groups, slices, v))
    && (r.actualOverlap <==> OverlapsAsOrdered(groups, slices))
  }

  lemma DependenciesMean(r: Report, groups: Groups, slices: nat)
    requires Complete(groups, slices) && r.Report? && Describes(r, groups, slices)
    ensures forall v :: v in r.violations <==> StartsTooSoon(groups, slices, v)
    ensures forall v :: v in r.early <==> StartsInside(groups, slices, v)
    ensures r.violations == [] <==> forall v :: !StartsTooSoon(groups, slices, v)
    ensures r.early == [] <==> forall v :: !StartsInside(groups, slices, v)
  {
    forall v
      ensures Violates(groups, slices, v) <==> StartsTooSoon(groups, slices, v)
      ensures StartsEarly(groups, slices, v) <==> StartsInside(groups, slices, v)
    {
      ViolatesMeans(groups, slices, v);
      EarlyMeans(groups, slices, v);
    }
    Emptiness(r.violations, v => StartsTooSoon(groups, slices, v));
    Emptiness(r.early, v => StartsInside(groups, slices, v));
  }

  lemma SomeEdgeMeans(groups: Groups, overlaps: seq<int>)
    requires |groups| >= 2 && forall e | 0 <= e < |groups| :: SortedLaunches(groups[e])
    requires |overlaps| == |groups| - 1 && forall e | 0 <= e < |groups| - 1 :: overlaps[e] == EdgeOverlap(groups, e)
    ensures (exists x :: x in overlaps && x > 0) <==>
            exists e :: 0 <= e < |groups| - 1 && BothRun(groups[e], groups[e + 1])
  {
    OverlapFound(groups, overlaps);
    forall e | 0 <= e < |groups| - 1
      ensures RunTogether(groups[e], groups[e + 1]) <==> BothRun(groups[e], groups[e + 1])
    {
      TogetherMeans(groups[e], groups[e + 1]);
    }
  }

  lemma StreamsMean(r: Report, groups: Groups, slices: nat)
    requires Complete(groups, slices) && r.Report? && Describes(r, groups, slices)
    ensures |r.streams| == |groups|
    ensures forall e, s: int | 0 <= e < |groups| ::
              s in r.streams[e] <==> exists row :: row in groups[e] && row.stream == s
  {
    forall e | 0 <= e < |groups|
      ensures forall s: int :: s in r.streams[e] <==> exists row :: row in groups[e] && row.stream == s
    {
      assert r.streams[e] == StreamsOf(groups[e]);
    }
  }

  lemma DescriptionMeans(r: Report, groups: Groups, slices: nat)
    requires Complete(groups, slices) && r.Report? && Describes(r, groups, slices)
    requires forall e | 0 <= e < |groups| :: SortedLaunches(groups[e])
    ensures Reports(r, groups, slices)
  {
    StreamsMean(r, groups, slices);
    DependenciesMean(r, groups, slices);
    SomeEdgeMeans(groups, r.overlaps);
  }

  /** What a report says, launch by launch: the streams of each factor, exactly the launches that start too soon,
      exactly those that start inside their producer, and its verdict. */
  lemma ReportMeans(rows: seq<Launch>, slices: nat, keys: seq<Key>, total: int, r: Report)
    requires SortedLaunches(rows) && Traces(Annotated(rows), slices, keys, total)
    requires r.Report? && Describes(r, GroupsOf(Annotated(rows), keys), slices)
    ensures Reports(r, GroupsOf(Annotated(rows), keys), slices)
  {
    GroupsSorted(rows, keys);
    DescriptionMeans(r, GroupsOf(Annotated(rows), keys), slices);
  }

  // --- the example

  lemma OneEarly(x: string, y: string, z: string, v: Dependency)
    ensures StartsInside([First(x), Second(y), Last(z)], 4, v) <==> v == Dependency(0, 0, 0)
  {
    var groups := [First(x), Second(y), Last(z)];
    if v.edge == 0 && v.invocation == 0 && v.slot < 4 {
      var producer := Producer(First(x), 4, 0);
      assert producer == First(x);
      assert First(x)[1] in producer;
    }
  }

  /** The checker finds one early launch in the example trace, the second factor's first slice, and reports
      actual overlap. */
  lemma ExampleOverlaps(x: string, y: string, z: string, factors: seq<int>, total: nat, r: Report)
    requires InTurn(First(x), Second(y), Last(z), factors, total)
    requires r.Report? && Complete([First(x), Second(y), Last(z)], 4)
    requires Describes(r, [First(x), Second(y), Last(z)], 4)
    ensures r.early == [Dependency(0, 0, 0)] && r.actualOverlap
  {
    var groups := [First(x), Second(y), Last(z)];
    AcceptedTraceOvercounts(x, y, z, factors, total, r);
    forall v
      ensures v in r.early <==> v == Dependency(0, 0, 0)
    {
      OneEarly(x, y, z, v);
      EarlyMeans(groups, 4, v);
    }
    OnlyOne(r.early, Dependency(0, 0, 0));
    assert r.overlaps[0] in r.overlaps;
  }

  lemma OnlyOne(s: seq<Dependency>, v: Dependency)
    requires Distinct(s) && forall u :: u in s <==> u == v
    ensures s == [v]
  {
    SameMembersPermutation(s, [v]);
    assert s[0] in s;
  }
}
