/** The checker that decides from a GPU trace whether the launches of a factor chain respected
    their dependencies. */
module FactorTrace {
  import opened Options
  import opened Sets
  import opened Sorting
  import opened FactorPartition
  import opened KernelName
  import IntervalOverlap

  /** (done, log): the stage coordinate and size of a factor. */
  datatype Key = Key(done: int, log: int)

  /** One kernel of the trace; the trace is sorted by start. */
  datatype Launch = Launch(start: int, end: int, stream: int, name: string)

  // -------------------------------------------------------------- coordinates

  /** The coordinates the lowering gives to a factor list. */
  function KeysOf(factors: seq<int>, done: int): (r: seq<Key>)
    ensures |r| == |factors|
  {
    if factors == [] then [] else [Key(done, factors[0])] + KeysOf(factors[1..], done + factors[0])
  }

  function Logs(keys: seq<Key>): (r: seq<int>)
    ensures |r| == |keys| && forall i | 0 <= i < |keys| :: r[i] == keys[i].log
  {
    seq(|keys|, i requires 0 <= i < |keys| => keys[i].log)
  }

  /** The check on the sorted coordinates: they start at 0, continue without a gap and add
      up to the transform. */
  predicate ChainOk(keys: seq<Key>, total: int) {
    && |keys| >= 2
    && keys[0].done == 0
    && (forall i | 0 <= i < |keys| - 1 :: keys[i].done + keys[i].log == keys[i + 1].done)
    && Sum(Logs(keys)) == total
  }

  predicate KeyLeq(a: Key, b: Key) {
    a.done < b.done || (a.done == b.done && a.log <= b.log)
  }

  lemma {:induction false} KeysOfAt(factors: seq<int>, done: int, i: nat)
    requires i < |factors|
    ensures KeysOf(factors, done)[i] == Key(done + Sum(factors[..i]), factors[i])
  {
    if i > 0 {
      KeysOfAt(factors[1..], done + factors[0], i - 1);
      assert factors[..i][1..] == factors[1..][..i - 1];
    }
  }

  lemma KeysArePartialSums(factors: seq<int>)
    ensures forall i | 0 <= i < |factors| :: KeysOf(factors, 0)[i] == Key(Sum(factors[..i]), factors[i])
    ensures Logs(KeysOf(factors, 0)) == factors
  {
    forall i | 0 <= i < |factors|
      ensures KeysOf(factors, 0)[i] == Key(Sum(factors[..i]), factors[i])
    {
      KeysOfAt(factors, 0, i);
    }
  }

  /** The coordinates of an accepted factor list are already in sorted order and pass the chain
      check, and their sizes are the factor list. */
  lemma KeysPassChain(factors: seq<int>, total: int)
    requires AllAtLeastOne(factors) && |factors| >= 2 && Sum(factors) == total
    ensures ChainOk(KeysOf(factors, 0), total) && Logs(KeysOf(factors, 0)) == factors
    ensures forall i, j | 0 <= i < j < |factors| :: KeysOf(factors, 0)[i].done < KeysOf(factors, 0)[j].done
  {
    KeysArePartialSums(factors);
    forall i | 0 <= i < |factors| - 1
      ensures KeysOf(factors, 0)[i].done + KeysOf(factors, 0)[i].log == KeysOf(factors, 0)[i + 1].done
    {
      PartialSum(factors, i);
    }
    forall i, j | 0 <= i < j < |factors|
      ensures Sum(factors[..i]) < Sum(factors[..j])
    {
      PrefixSumsAscend(factors, i, j);
    }
  }

  /** Conversely the chain check accepts nothing but the coordinates of a factor list. */
  lemma ChainDeterminesFactors(keys: seq<Key>, total: int)
    requires ChainOk(keys, total)
    ensures keys == KeysOf(Logs(keys), 0) && Sum(Logs(keys)) == total
  {
    ChainFrom(keys, 0);
  }

  lemma {:induction false} ChainFrom(keys: seq<Key>, done: int)
    requires keys != [] ==> keys[0].done == done
    requires forall i | 0 <= i < |keys| - 1 :: keys[i].done + keys[i].log == keys[i + 1].done
    ensures keys == KeysOf(Logs(keys), done)
  {
    if keys != [] {
      var rest := keys[1..];
      assert Logs(keys)[1..] == Logs(rest);
      ChainFrom(rest, done + keys[0].log);
      assert keys == [keys[0]] + rest;
    }
  }

  // ------------------------------------------------------------- dependencies

  /** The launches of every factor, in chain order and by start time. */
  type Groups = seq<seq<Launch>>

  /** The final factor has one launch an invocation, every other one has one per slice. */
  predicate Complete(groups: Groups, slices: int) {
    && |groups| >= 2 && slices >= 2
    && var count := |groups[|groups| - 1]|;
       forall e | 0 <= e < |groups| - 1 :: |groups[e]| == count * slices
  }

  lemma SliceIndex(inv: nat, count: nat, slices: nat, j: nat)
    requires inv < count && j < slices
    ensures 0 <= inv * slices + j < count * slices
  {
    assert (count - 1 - inv) * slices >= 0;
    assert count * slices == inv * slices + (count - 1 - inv) * slices + slices;
  }

  /** Slice j of a non-final factor in an invocation. */
  function SliceOf(groups: Groups, slices: nat, inv: nat, e: nat, j: nat): Launch
    requires Complete(groups, slices) && e < |groups| - 1 && inv < |groups[|groups| - 1]| && j < slices
  {
    SliceIndex(inv, |groups[|groups| - 1]|, slices, j);
    groups[e][inv * slices + j]
  }

  function Final(groups: Groups, inv: nat): Launch
    requires groups != [] && inv < |groups[|groups| - 1]|
  {
    groups[|groups| - 1][inv]
  }

  /** max(p.end for p in producer). */
  function LastEnd(groups: Groups, slices: nat, inv: nat, e: nat, n: nat): int
    requires Complete(groups, slices) && e < |groups| - 1 && inv < |groups[|groups| - 1]| && 1 <= n <= slices
  {
    var end := SliceOf(groups, slices, inv, e, n - 1).end;
    if n == 1 then end
    else
      var rest := LastEnd(groups, slices, inv, e, n - 1);
      if end > rest then end else rest
  }

  lemma {:induction false} LastEndIsMax(groups: Groups, slices: nat, inv: nat, e: nat, n: nat) returns (k: nat)
    requires Complete(groups, slices) && e < |groups| - 1 && inv < |groups[|groups| - 1]| && 1 <= n <= slices
    ensures forall j: nat | j < n :: SliceOf(groups, slices, inv, e, j).end <= LastEnd(groups, slices, inv, e, n)
    ensures k < n && SliceOf(groups, slices, inv, e, k).end == LastEnd(groups, slices, inv, e, n)
  {
    k := n - 1;
    if n > 1 {
      var i := LastEndIsMax(groups, slices, inv, e, n - 1);
      if SliceOf(groups, slices, inv, e, k).end <= LastEnd(groups, slices, inv, e, n - 1) {
        k := i;
      }
    }
  }

  /** One consumer launch of an edge of the chain. */
  datatype Dependency = Dependency(invocation: nat, edge: nat, slot: nat)

  /** The per-edge check: the consumer launch starts before the end it depends on. */
  predicate Violates(groups: Groups, slices: nat, v: Dependency)
    requires Complete(groups, slices)
  {
    && v.invocation < |groups[|groups| - 1]| && v.edge < |groups| - 1
    && if v.edge + 2 == |groups|
       then v.slot == 0 && Final(groups, v.invocation).start < LastEnd(groups, slices, v.invocation, v.edge, slices)
       else v.slot < slices && SliceOf(groups, slices, v.invocation, v.edge + 1, v.slot).start
                               < SliceOf(groups, slices, v.invocation, v.edge, v.slot).end
  }

  /** A non-final consumer starts before all slices of its producer have ended: the stages of one
      transform are pipelined. */
  predicate StartsEarly(groups: Groups, slices: nat, v: Dependency)
    requires Complete(groups, slices)
  {
    && v.invocation < |groups[|groups| - 1]| && v.edge + 2 < |groups| && v.slot < slices
    && SliceOf(groups, slices, v.invocation, v.edge + 1, v.slot).start
       < LastEnd(groups, slices, v.invocation, v.edge, slices)
  }

  function Spans(rows: seq<Launch>): (r: seq<IntervalOverlap.Interval>)
    ensures |r| == |rows|
    ensures forall i | 0 <= i < |rows| :: r[i] == IntervalOverlap.Interval(rows[i].start, rows[i].end)
  {
    seq(|rows|, i requires 0 <= i < |rows| => IntervalOverlap.Interval(rows[i].start, rows[i].end))
  }

  /** The overlap reported for an edge. */
  function EdgeOverlap(groups: Groups, e: nat): nat
    requires e + 1 < |groups|
  {
    IntervalOverlap.Sweep(Spans(groups[e]), Spans(groups[e + 1]))
  }

  ghost predicate WellTimed(groups: Groups) {
    forall e, i | 0 <= e < |groups| && 0 <= i < |groups[e]| :: groups[e][i].start <= groups[e][i].end
  }

  /** Slice j of factor b starts no earlier than slice j of factor a ended. */
  ghost predicate SliceFollows(groups: Groups, slices: nat, inv: nat, a: nat, b: nat, j: nat)
    requires Complete(groups, slices) && inv < |groups[|groups| - 1]| && a < b < |groups| - 1 && j < slices
  {
    SliceOf(groups, slices, inv, a, j).end <= SliceOf(groups, slices, inv, b, j).start
  }

  /** The final launch starts no earlier than slice j of factor a ended. */
  ghost predicate FinalFollows(groups: Groups, slices: nat, inv: nat, a: nat, j: nat)
    requires Complete(groups, slices) && inv < |groups[|groups| - 1]| && a < |groups| - 1 && j < slices
  {
    SliceOf(groups, slices, inv, a, j).end <= Final(groups, inv).start
  }

  /** The global order: every slice follows the same slice of every earlier factor, and the final
      launch follows every other launch of its invocation. */
  ghost predicate GloballyOrdered(groups: Groups, slices: nat)
    requires Complete(groups, slices)
  {
    && (forall inv: nat, a: nat, b: nat, j: nat | inv < |groups[|groups| - 1]| && a < b < |groups| - 1 && j < slices ::
          SliceFollows(groups, slices, inv, a, b, j))
    && (forall inv: nat, a: nat, j: nat | inv < |groups[|groups| - 1]| && a < |groups| - 1 && j < slices ::
          FinalFollows(groups, slices, inv, a, j))
  }

  lemma {:induction false} SlicesOrdered(groups: Groups, slices: nat, inv: nat, a: nat, b: nat, j: nat)
    requires Complete(groups, slices) && WellTimed(groups) && inv < |groups[|groups| - 1]|
    requires a < b < |groups| - 1 && j < slices
    requires forall v :: !Violates(groups, slices, v)
    ensures SliceOf(groups, slices, inv, a, j).end <= SliceOf(groups, slices, inv, b, j).start
    decreases b
  {
    assert !Violates(groups, slices, Dependency(inv, b - 1, j));
    if a < b - 1 {
      SlicesOrdered(groups, slices, inv, a, b - 1, j);
      SliceIndex(inv, |groups[|groups| - 1]|, slices, j);
      assert SliceOf(groups, slices, inv, b - 1, j).start <= SliceOf(groups, slices, inv, b - 1, j).end;
    }
  }

  lemma FinalOrdered(groups: Groups, slices: nat, inv: nat, a: nat, j: nat)
    requires Complete(groups, slices) && WellTimed(groups) && inv < |groups[|groups| - 1]|
    requires a < |groups| - 1 && j < slices
    requires forall v :: !Violates(groups, slices, v)
    ensures SliceOf(groups, slices, inv, a, j).end <= Final(groups, inv).start
  {
    var last := |groups| - 2;
    assert !Violates(groups, slices, Dependency(inv, last, 0));
    var k := LastEndIsMax(groups, slices, inv, last, slices);
    if a < last {
      SlicesOrdered(groups, slices, inv, a, last, j);
      SliceIndex(inv, |groups[|groups| - 1]|, slices, j);
      assert SliceOf(groups, slices, inv, last, j).start <= SliceOf(groups, slices, inv, last, j).end;
    }
  }

  /** The local edge checks imply the global order, and the global order passes them. */
  lemma EdgeChecksDecideGlobalOrder(groups: Groups, slices: nat)
    requires Complete(groups, slices) && WellTimed(groups)
    ensures (forall v :: !Violates(groups, slices, v)) <==> GloballyOrdered(groups, slices)
  {
    if forall v :: !Violates(groups, slices, v) {
      forall inv: nat, a: nat, b: nat, j: nat | inv < |groups[|groups| - 1]| && a < b < |groups| - 1 && j < slices
        ensures SliceFollows(groups, slices, inv, a, b, j)
      {
        SlicesOrdered(groups, slices, inv, a, b, j);
      }
      forall inv: nat, a: nat, j: nat | inv < |groups[|groups| - 1]| && a < |groups| - 1 && j < slices
        ensures FinalFollows(groups, slices, inv, a, j)
      {
        FinalOrdered(groups, slices, inv, a, j);
      }
    }
    if GloballyOrdered(groups, slices) {
      forall v
        ensures !Violates(groups, slices, v)
      {
        OrderedDoesNotViolate(groups, slices, v);
      }
    }
  }

  lemma OrderedDoesNotViolate(groups: Groups, slices: nat, v: Dependency)
    requires Complete(groups, slices) && GloballyOrdered(groups, slices)
    ensures !Violates(groups, slices, v)
  {
    var inv, e := v.invocation, v.edge;
    if inv < |groups[|groups| - 1]| && e < |groups| - 1 {
      if e + 2 == |groups| {
        var k := LastEndIsMax(groups, slices, inv, e, slices);
        assert FinalFollows(groups, slices, inv, e, k);
      } else if v.slot < slices {
        assert SliceFollows(groups, slices, inv, e, e + 1, v.slot);
      }
    }
  }

  // ---------------------------------------------------------- the trace checker

  /** A launch together with what its name reads as. */
  datatype Traced = Traced(launch: Launch, shape: Parameters)

  function Annotated(rows: seq<Launch>): (r: seq<Traced>)
    ensures |r| == |rows| && forall i | 0 <= i < |rows| :: r[i] == Traced(rows[i], Read(rows[i].name))
  {
    seq(|rows|, i requires 0 <= i < |rows| => Traced(rows[i], Read(rows[i].name)))
  }

  /** The rows of one factor, in trace order. */
  function RowsOf(rows: seq<Traced>, key: Key): seq<Launch> {
    if rows == [] then []
    else
      var rest, row := RowsOf(rows[..|rows| - 1], key), rows[|rows| - 1];
      if HasKey(row, key) then rest + [row.launch] else rest
  }

  predicate HasKey(row: Traced, key: Key) {
    row.shape.Parameters? && row.shape.done == key.done && row.shape.log == key.log
  }

  function GroupsOf(rows: seq<Traced>, keys: seq<Key>): (r: Groups)
    ensures |r| == |keys| && forall i | 0 <= i < |keys| :: r[i] == RowsOf(rows, keys[i])
  {
    seq(|keys|, i requires 0 <= i < |keys| => RowsOf(rows, keys[i]))
  }

  function KeyBefore(): (Key, Key) -> bool {
    (a: Key, b: Key) => KeyLeq(a, b) && a != b
  }

  /** The sorted coordinates that occur in the trace. */
  ghost predicate TraceKeys(rows: seq<Traced>, keys: seq<Key>) {
    && Distinct(keys) && Sorted(keys, KeyBefore())
    && forall k :: k in keys <==> Occurs(rows, k)
  }

  ghost predicate Occurs(rows: seq<Traced>, key: Key) {
    exists row :: row in rows && HasKey(row, key)
  }

  ghost predicate TraceTotal(rows: seq<Traced>, total: int) {
    forall row | row in rows ::
      !row.shape.Malformed? && (row.shape.Parameters? ==> row.shape.total == total)
  }

  /** A complete trace of one multi-factor transform. */
  ghost predicate Traces(rows: seq<Traced>, slices: int, keys: seq<Key>, total: int) {
    && TraceTotal(rows, total) && TraceKeys(rows, keys) && ChainOk(keys, total)
    && Complete(GroupsOf(rows, keys), slices)
  }

  lemma TraceKeysUnique(rows: seq<Traced>, a: seq<Key>, b: seq<Key>)
    requires TraceKeys(rows, a) && TraceKeys(rows, b)
    ensures a == b
  {
    SameMembersPermutation(a, b);
    StrictlySortedUnique(a, b, KeyBefore(), |a|);
    assert a[..|a|] == a && b[..|b|] == b;
  }

  /** A trace of a lowered factor list: every kernel name in it names one of the groups or is no factor kernel,
      and every group occurs. */
  ghost predicate LaunchesOf(rows: seq<Launch>, factors: seq<int>, total: nat) {
    && (forall row | row in rows :: IsLaunchOf(row, factors, total) || Read(row.name).NotAFactor?)
    && (forall i: nat | i < |factors| :: HasLaunch(rows, factors, total, i))
  }

  ghost predicate IsLaunchOf(row: Launch, factors: seq<int>, total: nat) {
    exists i: nat :: i < |factors| && NamesFactor(row.name, factors, total, i)
  }

  ghost predicate HasLaunch(rows: seq<Launch>, factors: seq<int>, total: nat, i: nat)
    requires i < |factors|
  {
    exists row :: row in rows && NamesFactor(row.name, factors, total, i)
  }

  ghost predicate NamesFactor(name: string, factors: seq<int>, total: nat, i: nat)
    requires i < |factors|
  {
    factors[i] >= 0 && Sum(factors[..i]) >= 0 && NamesGroup(name, total, factors[i], Sum(factors[..i]))
  }

  lemma FactorReadsBack(name: string, factors: seq<int>, total: nat, i: nat)
    requires i < |factors| && NamesFactor(name, factors, total, i)
    ensures Sum(factors[..i]) >= 0 && factors[i] >= 0
    ensures Read(name) == Parameters(total, factors[i], Sum(factors[..i]))
    ensures KeysOf(factors, 0)[i] == Key(Sum(factors[..i]), factors[i])
  {
    NameReadsBack(name, total, factors[i], Sum(factors[..i]));
    KeysOfAt(factors, 0, i);
  }

  /** The coordinates that occur are the coordinates of the factors. */
  lemma OccurringKeys(rows: seq<Launch>, factors: seq<int>, total: nat, k: Key)
    requires LaunchesOf(rows, factors, total)
    ensures k in KeysOf(factors, 0) <==> Occurs(Annotated(rows), k)
  {
    var traced := Annotated(rows);
    if Occurs(traced, k) {
      var t :| t in traced && HasKey(t, k);
      assert t.launch in rows;
      assert IsLaunchOf(t.launch, factors, total);
      var i: nat :| i < |factors| && NamesFactor(t.launch.name, factors, total, i);
      FactorReadsBack(t.launch.name, factors, total, i);
    }
    if k in KeysOf(factors, 0) {
      var i: nat :| i < |factors| && KeysOf(factors, 0)[i] == k;
      assert HasLaunch(rows, factors, total, i);
      var row :| row in rows && NamesFactor(row.name, factors, total, i);
      FactorReadsBack(row.name, factors, total, i);
      AnnotatedMember(rows, row);
      assert HasKey(Traced(row, Read(row.name)), k);
    }
  }

  lemma AnnotatedMember(rows: seq<Launch>, row: Launch)
    ensures row in rows <==> Traced(row, Read(row.name)) in Annotated(rows)
  {
  }

  lemma LaunchReads(row: Launch, factors: seq<int>, total: nat)
    requires IsLaunchOf(row, factors, total)
    ensures Read(row.name).Parameters? && Read(row.name).total == total
  {
    var i: nat :| i < |factors| && NamesFactor(row.name, factors, total, i);
    FactorReadsBack(row.name, factors, total, i);
  }

  lemma LaunchesHaveTotal(rows: seq<Launch>, factors: seq<int>, total: nat)
    requires forall row | row in rows :: IsLaunchOf(row, factors, total) || Read(row.name).NotAFactor?
    ensures TraceTotal(Annotated(rows), total)
  {
    forall i | 0 <= i < |rows|
      ensures !Annotated(rows)[i].shape.Malformed?
      ensures Annotated(rows)[i].shape.Parameters? ==> Annotated(rows)[i].shape.total == total
    {
      assert rows[i] in rows;
      if IsLaunchOf(rows[i], factors, total) {
        LaunchReads(rows[i], factors, total);
      }
    }
  }

  /** The trace of a lowered transform has the transform's coordinates. */
  lemma LaunchesHaveKeys(rows: seq<Launch>, factors: seq<int>, total: nat)
    requires AllAtLeastOne(factors) && |factors| >= 2 && Sum(factors) == total
    requires LaunchesOf(rows, factors, total)
    ensures TraceTotal(Annotated(rows), total) && TraceKeys(Annotated(rows), KeysOf(factors, 0))
    ensures ChainOk(KeysOf(factors, 0), total)
  {
    KeysPassChain(factors, total);
    LaunchesHaveTotal(rows, factors, total);
    forall k
      ensures k in KeysOf(factors, 0) <==> Occurs(Annotated(rows), k)
    {
      OccurringKeys(rows, factors, total, k);
    }
  }

  /** From names alone, whatever stands around the coordinates, the checker recovers an accepted factor
      list: its coordinates are the sorted keys of the trace, they pass the chain check and their sizes
      are the factors. */
  lemma TraceRecoversFactors(rows: seq<Launch>, factors: seq<int>, total: nat, keys: seq<Key>)
    requires AllAtLeastOne(factors) && |factors| >= 2 && Sum(factors) == total
    requires LaunchesOf(rows, factors, total) && TraceKeys(Annotated(rows), keys)
    ensures TraceTotal(Annotated(rows), total) && keys == KeysOf(factors, 0)
    ensures ChainOk(keys, total) && Logs(keys) == factors
  {
    LaunchesHaveKeys(rows, factors, total);
    TraceKeysUnique(Annotated(rows), keys, KeysOf(factors, 0));
    KeysPassChain(factors, total);
  }

  // --- the implementation

  datatype Report =
    | Refused
    | Report(partition: seq<int>, invocations: nat, streams: seq<set<int>>, violations: seq<Dependency>,
             early: seq<Dependency>, overlaps: seq<int>, actualOverlap: bool)

  function StreamsOf(rows: seq<Launch>): set<int> {
    set row | row in rows :: row.stream
  }

  /** What a report says about the launches of a trace. */
  ghost predicate Describes(r: Report, groups: Groups, slices: nat)
    requires Complete(groups, slices) && r.Report?
  {
    && r.invocations == |groups[|groups| - 1]|
    && |r.streams| == |groups| && (forall e | 0 <= e < |groups| :: r.streams[e] == StreamsOf(groups[e]))
    && Distinct(r.violations) && (forall v :: v in r.violations <==> Violates(groups, slices, v))
    && Distinct(r.early) && (forall v :: v in r.early <==> StartsEarly(groups, slices, v))
    && |r.overlaps| == |groups| - 1 && (forall e | 0 <= e < |groups| - 1 :: r.overlaps[e] == EdgeOverlap(groups, e))
    && (r.actualOverlap <==> r.violations == [] && r.early != [] && exists x :: x in r.overlaps && x > 0)
  }

  lemma {:induction false} NoRows(rows: seq<Traced>, key: Key)
    ensures Occurs(rows, key) || RowsOf(rows, key) == []
  {
    if rows != [] {
      var init, last := rows[..|rows| - 1], rows[|rows| - 1];
      NoRows(init, key);
      assert rows == init + [last];
      if Occurs(init, key) {
        var row :| row in init && HasKey(row, key);
        assert row in rows;
      }
      assert last in rows;
    }
  }

  ghost predicate HasTotal(rows: seq<Traced>, total: int) {
    exists row :: row in rows && row.shape.Parameters? && row.shape.total == total
  }

  /** The dictionary and the set of totals after some rows. */
  ghost predicate Grouped(rows: seq<Traced>, groups: map<Key, seq<Launch>>, totals: set<int>) {
    && (forall row | row in rows :: !row.shape.Malformed?)
    && (forall k :: k in groups <==> Occurs(rows, k))
    && (forall k | k in groups :: groups[k] == RowsOf(rows, k))
    && (forall t: int :: t in totals <==> HasTotal(rows, t))
  }

  lemma OccursGrows(rows: seq<Traced>, row: Traced)
    ensures forall k :: Occurs(rows + [row], k) <==> Occurs(rows, k) || HasKey(row, k)
    ensures forall t: int :: HasTotal(rows + [row], t) <==>
                             HasTotal(rows, t) || (row.shape.Parameters? && row.shape.total == t)
  {
  }

  lemma GroupSkip(rows: seq<Traced>, row: Traced, groups: map<Key, seq<Launch>>, totals: set<int>)
    requires Grouped(rows, groups, totals) && row.shape.NotAFactor?
    ensures Grouped(rows + [row], groups, totals)
  {
  }

  lemma OwnKey(row: Traced, key: Key)
    requires row.shape.Parameters? && key == Key(row.shape.done, row.shape.log)
    ensures forall k :: HasKey(row, k) <==> k == key
  {
  }

  lemma GroupAppend(rows: seq<Traced>, row: Traced, groups: map<Key, seq<Launch>>, key: Key)
    requires forall k | k in groups :: groups[k] == RowsOf(rows, k)
    requires key !in groups ==> RowsOf(rows, key) == []
    requires forall k :: HasKey(row, k) <==> k == key
    ensures var next := groups[key := (if key in groups then groups[key] else []) + [row.launch]];
      forall k | k in next :: next[k] == RowsOf(rows + [row], k)
  {
  }

  lemma GroupRow(rows: seq<Traced>, row: Traced, groups: map<Key, seq<Launch>>, totals: set<int>, key: Key)
    requires Grouped(rows, groups, totals)
    requires row.shape.Parameters? && key == Key(row.shape.done, row.shape.log)
    ensures Grouped(rows + [row], groups[key := (if key in groups then groups[key] else []) + [row.launch]],
                    totals + {row.shape.total})
  {
    OccursGrows(rows, row);
    NoRows(rows, key);
    OwnKey(row, key);
    GroupAppend(rows, row, groups, key);
  }

  /** One row of the grouping loop whose name does not raise. */
  method GroupOne(row: Launch, shape: Parameters, groups: map<Key, seq<Launch>>, totals: set<int>,
                  ghost before: seq<Traced>)
    returns (groups': map<Key, seq<Launch>>, totals': set<int>)
    requires Grouped(before, groups, totals) && !shape.Malformed?
    ensures Grouped(before + [Traced(row, shape)], groups', totals')
  {
    groups', totals' := groups, totals;
    if shape.NotAFactor? {
      GroupSkip(before, Traced(row, shape), groups, totals);
    } else {
      var key := Key(shape.done, shape.log);
      GroupRow(before, Traced(row, shape), groups, totals, key);
      totals' := totals + {shape.total};
      groups' := groups[key := (if key in groups then groups[key] else []) + [row]];
    }
  }

  lemma OneMore(rows: seq<Traced>, i: nat)
    requires i < |rows|
    ensures rows[..i + 1] == rows[..i] + [rows[i]]
  {
  }

  /** The grouping loop; None when some name raises. */
  method GroupRows(rows: seq<Launch>) returns (grouped: Option<map<Key, seq<Launch>>>, totals: set<int>)
    ensures grouped.None? <==> exists t :: t in Annotated(rows) && t.shape.Malformed?
    ensures grouped.Some? ==> Grouped(Annotated(rows), grouped.value, totals)
  {
    ghost var traced := Annotated(rows);
    var groups: map<Key, seq<Launch>> := map[];
    totals := {};
    for i := 0 to |rows|
      invariant Grouped(traced[..i], groups, totals)
    {
      var row := rows[i];
      OneMore(traced, i);
      var shape := FactorParameters(row.name);
      if shape.Malformed? {
        assert traced[i] in traced;
        return None, totals;
      }
      groups, totals := GroupOne(row, shape, groups, totals, traced[..i]);
    }
    assert traced[..|rows|] == traced;
    return Some(groups), totals;
  }

  /** sorted(grouped). */
  method SortedKeys(keys: set<Key>) returns (s: seq<Key>)
    ensures Distinct(s) && Sorted(s, KeyBefore()) && forall k :: k in s <==> k in keys
  {
    var listed: seq<Key> := [];
    var todo := keys;
    while todo != {}
      invariant Distinct(listed) && (forall k | k in listed :: k !in todo)
      invariant forall k :: k in keys <==> k in listed || k in todo
      decreases |todo|
    {
      var k := Take(todo);
      listed := listed + [k];
      todo := todo - {k};
    }
    var le := (a: Key, b: Key) => KeyLeq(a, b);
    s := SortBy(listed, le);
    SortFacts(listed, le);
    PermutationSize(s, listed);
    DistinctPermutation(listed, s);
    forall i, j | 0 <= i < j < |s|
      ensures KeyBefore()(s[i], s[j])
    {
      assert le(s[i], s[j]);
    }
  }

  /** Dependencies of earlier invocations, or of the same one on earlier edges. */
  predicate Earlier(v: Dependency, inv: nat, edge: nat) {
    v.invocation < inv || (v.invocation == inv && v.edge < edge)
  }

  /** The dependency loops over invocations, edges and slots. */
  method FindViolations(groups: Groups, slices: nat) returns (violations: seq<Dependency>, early: seq<Dependency>)
    requires Complete(groups, slices)
    ensures Distinct(violations) && forall v :: v in violations <==> Violates(groups, slices, v)
    ensures Distinct(early) && forall v :: v in early <==> StartsEarly(groups, slices, v)
  {
    violations, early := [], [];
    for inv := 0 to |groups[|groups| - 1]|
      invariant Distinct(violations) && Distinct(early)
      invariant forall v :: v in violations <==> Earlier(v, inv, 0) && Violates(groups, slices, v)
      invariant forall v :: v in early <==> Earlier(v, inv, 0) && StartsEarly(groups, slices, v)
    {
      for edge := 0 to |groups| - 1
        invariant Distinct(violations) && Distinct(early)
        invariant forall v :: v in violations <==> Earlier(v, inv, edge) && Violates(groups, slices, v)
        invariant forall v :: v in early <==> Earlier(v, inv, edge) && StartsEarly(groups, slices, v)
      {
        var found, before := EdgeViolations(groups, slices, inv, edge);
        DistinctConcat(violations, found);
        DistinctConcat(early, before);
        violations, early := violations + found, early + before;
      }
    }
  }

  method EdgeViolations(groups: Groups, slices: nat, inv: nat, edge: nat)
    returns (found: seq<Dependency>, early: seq<Dependency>)
    requires Complete(groups, slices) && inv < |groups[|groups| - 1]| && edge < |groups| - 1
    ensures Distinct(found) && forall v :: v in found <==>
              v.invocation == inv && v.edge == edge && Violates(groups, slices, v)
    ensures Distinct(early) && forall v :: v in early <==>
              v.invocation == inv && v.edge == edge && StartsEarly(groups, slices, v)
  {
    found, early := [], [];
    var end := LastEnd(groups, slices, inv, edge, slices);
    if edge + 2 == |groups| {
      if Final(groups, inv).start < end {
        found := [Dependency(inv, edge, 0)];
      }
    } else {
      for slot := 0 to slices
        invariant Distinct(found) && Distinct(early)
        invariant forall v :: v in found <==>
                    v.invocation == inv && v.edge == edge && v.slot < slot && Violates(groups, slices, v)
        invariant forall v :: v in early <==>
                    v.invocation == inv && v.edge == edge && v.slot < slot && StartsEarly(groups, slices, v)
      {
        var row := SliceOf(groups, slices, inv, edge + 1, slot);
        if row.start < SliceOf(groups, slices, inv, edge, slot).end {
          found := found + [Dependency(inv, edge, slot)];
        }
        if row.start < end {
          early := early + [Dependency(inv, edge, slot)];
        }
      }
    }
  }

  /** The overlap of every edge, and whether some of it is positive. */
  method EdgeOverlaps(groups: Groups) returns (overlaps: seq<int>, positive: bool)
    requires |groups| >= 2
    ensures |overlaps| == |groups| - 1 && forall e | 0 <= e < |groups| - 1 :: overlaps[e] == EdgeOverlap(groups, e)
    ensures positive <==> exists x :: x in overlaps && x > 0
  {
    overlaps, positive := [], false;
    for edge := 0 to |groups| - 1
      invariant |overlaps| == edge && forall e | 0 <= e < edge :: overlaps[e] == EdgeOverlap(groups, e)
      invariant positive <==> exists x :: x in overlaps && x > 0
    {
      var shared := IntervalOverlap.Overlap(Spans(groups[edge]), Spans(groups[edge + 1]));
      ghost var before := overlaps;
      overlaps := overlaps + [shared];
      positive := positive || shared > 0;
      assert shared in overlaps && forall x | x in before :: x in overlaps;
    }
  }

  /** The whole check. It reports exactly on the complete traces of one transform, with the factor
      partition read from the names. */
  method AnalyzeFactors(rows: seq<Launch>, slices: int) returns (r: Report)
    ensures r.Report? <==> slices >= 2 && exists keys, total :: Traces(Annotated(rows), slices, keys, total)
    ensures forall keys, total | r.Report? && Traces(Annotated(rows), slices, keys, total) ::
      r.partition == Logs(keys) && Describes(r, GroupsOf(Annotated(rows), keys), slices)
  {
    if slices < 2 {
      return Refused;
    }
    var grouped, totals := GroupRows(rows);
    if grouped.None? {
      return Refused;
    }
    var keys := SortedKeys(grouped.value.Keys);
    ghost var traced := Annotated(rows);
    TraceDetermined(traced, slices, grouped.value, totals, keys);
    if |totals| != 1 || |keys| < 2 {
      return Refused;
    }
    var total := Take(totals);
    OneTotal(traced, grouped.value, totals, total);
    if !ChainOk(keys, total) {
      return Refused;
    }
    var groups := GroupList(traced, grouped.value, keys);
    if !Complete(groups, slices) {
      return Refused;
    }
    r := Summary(keys, groups, slices);
    assert Traces(traced, slices, keys, total);
  }

  method Summary(keys: seq<Key>, groups: Groups, slices: nat) returns (r: Report)
    requires Complete(groups, slices)
    ensures r.Report? && r.partition == Logs(keys) && Describes(r, groups, slices)
  {
    var violations, early := FindViolations(groups, slices);
    var overlaps, positive := EdgeOverlaps(groups);
    var streams := seq(|groups|, e requires 0 <= e < |groups| => StreamsOf(groups[e]));
    r := Report(Logs(keys), |groups[|groups| - 1]|, streams, violations, early, overlaps,
                violations == [] && early != [] && positive);
  }

  method GroupList(ghost rows: seq<Traced>, grouped: map<Key, seq<Launch>>, keys: seq<Key>) returns (groups: Groups)
    requires forall k | k in keys :: k in grouped && grouped[k] == RowsOf(rows, k)
    ensures groups == GroupsOf(rows, keys)
  {
    groups := [];
    for i := 0 to |keys|
      invariant |groups| == i && forall j | 0 <= j < i :: groups[j] == RowsOf(rows, keys[j])
    {
      assert keys[i] in keys;
      groups := groups + [grouped[keys[i]]];
    }
  }

  /** The coordinates and the transform size of a trace are determined by its rows. */
  lemma TraceDetermined(rows: seq<Traced>, slices: nat, groups: map<Key, seq<Launch>>, totals: set<int>, keys: seq<Key>)
    requires Grouped(rows, groups, totals) && TraceKeys(rows, keys)
    ensures forall other, total | Traces(rows, slices, other, total) ::
              other == keys && |keys| >= 2 && totals == {total}
  {
    forall other, total | Traces(rows, slices, other, total)
      ensures other == keys && |keys| >= 2 && totals == {total}
    {
      TraceKeysUnique(rows, other, keys);
      assert keys[0] in keys;
      var row :| row in rows && HasKey(row, keys[0]);
      assert HasTotal(rows, total);
      SameIntSet(totals, {total});
    }
  }

  lemma OneTotal(rows: seq<Traced>, groups: map<Key, seq<Launch>>, totals: set<int>, total: int)
    requires Grouped(rows, groups, totals) && |totals| == 1 && total in totals
    ensures totals == {total} && TraceTotal(rows, total)
  {
    SubsetOfSameSize({total}, totals);
    forall row | row in rows && row.shape.Parameters?
      ensures row.shape.total == total
    {
      assert HasTotal(rows, row.shape.total);
    }
  }

  // ------------------------------------------------- what actual overlap means

  ghost predicate SortedLaunches(rows: seq<Launch>) {
    forall i, j | 0 <= i < j < |rows| :: rows[i].start <= rows[j].start
  }

  lemma {:induction false} RowsOfSorted(rows: seq<Launch>, n: nat, key: Key)
    requires SortedLaunches(rows) && n <= |rows|
    ensures var r := RowsOf(Annotated(rows)[..n], key);
      SortedLaunches(r) && forall i | 0 <= i < |r| :: n > 0 && r[i].start <= rows[n - 1].start
  {
    if n > 0 {
      RowsOfSorted(rows, n - 1, key);
      assert Annotated(rows)[..n][..n - 1] == Annotated(rows)[..n - 1];
    }
  }

  /** Correctly ordered, pipelined, and with launches of neighbouring factors running at once. */
  ghost predicate OverlapsInOrder(groups: Groups, slices: nat)
    requires Complete(groups, slices)
  {
    && GloballyOrdered(groups, slices)
    && (exists v :: StartsEarly(groups, slices, v))
    && exists e :: 0 <= e < |groups| - 1 && RunTogether(groups[e], groups[e + 1])
  }

  ghost predicate RunTogether(producer: seq<Launch>, consumer: seq<Launch>) {
    IntervalOverlap.SharedTime(Spans(producer), Spans(consumer)) > 0
  }

  lemma OverlapFound(groups: Groups, overlaps: seq<int>)
    requires |groups| >= 2 && forall e | 0 <= e < |groups| :: SortedLaunches(groups[e])
    requires |overlaps| == |groups| - 1 && forall e | 0 <= e < |groups| - 1 :: overlaps[e] == EdgeOverlap(groups, e)
    ensures (exists x :: x in overlaps && x > 0) <==>
            exists e :: 0 <= e < |groups| - 1 && RunTogether(groups[e], groups[e + 1])
  {
    forall e | 0 <= e < |groups| - 1
      ensures overlaps[e] > 0 <==> RunTogether(groups[e], groups[e + 1])
    {
      IntervalOverlap.SweepDetectsOverlap(Spans(groups[e]), Spans(groups[e + 1]));
    }
    if exists x :: x in overlaps && x > 0 {
      var x :| x in overlaps && x > 0;
      var e :| 0 <= e < |overlaps| && overlaps[e] == x;
      assert RunTogether(groups[e], groups[e + 1]);
    }
    if exists e :: 0 <= e < |groups| - 1 && RunTogether(groups[e], groups[e + 1]) {
      var e :| 0 <= e < |groups| - 1 && RunTogether(groups[e], groups[e + 1]);
      assert overlaps[e] in overlaps;
    }
  }

  /** Although the slices of a factor may overlap each other, the reported verdict is exact. */
  lemma ActualOverlapIsExact(rows: seq<Launch>, slices: nat, keys: seq<Key>, total: int, r: Report)
    requires SortedLaunches(rows) && Traces(Annotated(rows), slices, keys, total)
    requires r.Report? && Describes(r, GroupsOf(Annotated(rows), keys), slices)
    requires WellTimed(GroupsOf(Annotated(rows), keys))
    ensures r.actualOverlap <==> OverlapsInOrder(GroupsOf(Annotated(rows), keys), slices)
  {
    var groups := GroupsOf(Annotated(rows), keys);
    forall e | 0 <= e < |groups|
      ensures SortedLaunches(groups[e])
    {
      RowsOfSorted(rows, |rows|, keys[e]);
      assert Annotated(rows)[..|rows|] == Annotated(rows);
    }
    OverlapFound(groups, r.overlaps);
    EdgeChecksDecideGlobalOrder(groups, slices);
    Emptiness(r.violations, v => Violates(groups, slices, v));
    Emptiness(r.early, v => StartsEarly(groups, slices, v));
  }

  lemma Emptiness(s: seq<Dependency>, p: Dependency -> bool)
    requires forall v :: v in s <==> p(v)
    ensures s == [] <==> forall v :: !p(v)
  {
    if s != [] {
      assert s[0] in s;
    }
  }

  // --------------------------------------------- when the reported amount is right

  /** The overlap reported for an edge is the time both factors ran, exactly when no drop of the sweep
      takes a launch that shares jointly covered time with later launches of its own factor. */
  lemma EdgeOverlapExactIff(rows: seq<Launch>, keys: seq<Key>, e: nat)
    requires SortedLaunches(rows) && e + 1 < |keys|
    ensures var groups := GroupsOf(Annotated(rows), keys);
      EdgeOverlap(groups, e) == IntervalOverlap.SharedTime(Spans(groups[e]), Spans(groups[e + 1])) <==>
      IntervalOverlap.ExactSweep(Spans(groups[e]), Spans(groups[e + 1]))
  {
    var groups := GroupsOf(Annotated(rows), keys);
    assert Annotated(rows)[..|rows|] == Annotated(rows);
    RowsOfSorted(rows, |rows|, keys[e]);
    RowsOfSorted(rows, |rows|, keys[e + 1]);
    IntervalOverlap.SweepExactIff(Spans(groups[e]), Spans(groups[e + 1]));
  }

  lemma {:induction false} RowsOfConcat(x: seq<Traced>, y: seq<Traced>, key: Key)
    ensures RowsOf(x + y, key) == RowsOf(x, key) + RowsOf(y, key)
    decreases |y|
  {
    if y == [] {
      assert x + y == x;
    } else {
      var init := y[..|y| - 1];
      assert (x + y)[..|x + y| - 1] == x + init;
      RowsOfConcat(x, init, key);
    }
  }

  /** Rows of one group are all of it or nothing. */
  lemma {:induction false} RowsOfUniform(traced: seq<Traced>, rows: seq<Launch>, shape: Parameters, key: Key)
    requires |traced| == |rows| && forall i | 0 <= i < |rows| :: traced[i] == Traced(rows[i], shape)
    requires shape.Parameters?
    ensures RowsOf(traced, key) == if key == Key(shape.done, shape.log) then rows else []
  {
    if rows != [] {
      var n := |rows| - 1;
      RowsOfUniform(traced[..n], rows[..n], shape, key);
      assert rows == rows[..n] + [rows[n]];
    }
  }
}
