/** What a finished search returns and leaves on disk. */
module SearchResults {
  import Sets
  import opened Sorting
  import opened Options
  import opened StratifiedOrder
  import opened ResumePrefix
  import opened Screening
  import opened SearchRuns
  import opened JournalGrowth
  import opened Resumption
  import opened SearchGuarantees

  // --- journal writes

  /** In a list of rows, row k is the last one of its name. */
  predicate LastOfName(rows: seq<Row>, k: nat) {
    k < |rows| && forall l | k < l < |rows| :: rows[l].name != rows[k].name
  }

  /** The later journal holds the last row of every name of the list and is otherwise the earlier one. */
  ghost predicate Updated(before: Journal, rows: seq<Row>, after: Journal) {
    && (forall k: nat | LastOfName(rows, k) :: rows[k].name in after && after[rows[k].name] == rows[k])
    && forall n: int | forall row | row in rows :: row.name != n ::
         (n in after <==> n in before) && (n in after ==> after[n] == before[n])
  }

  lemma LastInRest(rows: seq<Row>, k: nat)
    requires rows != [] && LastOfName(rows, k)
    ensures k > 0 ==> LastOfName(rows[1..], k - 1)
    ensures k == 0 ==> forall row | row in rows[1..] :: row.name != rows[0].name
  {
    if k == 0 {
      forall row | row in rows[1..]
        ensures row.name != rows[0].name
      {
        var l :| 0 <= l < |rows[1..]| && rows[1..][l] == row;
        assert rows[l + 1] == row;
      }
    }
  }

  lemma UpdatedByFirst(m: Journal, rows: seq<Row>, after: Journal)
    requires rows != [] && Updated(m[rows[0].name := rows[0]], rows[1..], after)
    ensures Updated(m, rows, after)
  {
    forall k: nat | LastOfName(rows, k)
      ensures rows[k].name in after && after[rows[k].name] == rows[k]
    {
      LastInRest(rows, k);
      assert k > 0 ==> rows[1..][k - 1] == rows[k];
    }
    forall n: int | forall row | row in rows :: row.name != n
      ensures (n in after <==> n in m) && (n in after ==> after[n] == m[n])
    {
      assert rows[0] in rows && forall row | row in rows[1..] :: row in rows;
    }
  }

  lemma {:induction false} SaveUpdates(m: Journal, rows: seq<Row>)
    ensures Updated(m, rows, Save(m, rows))
    decreases |rows|
  {
    if rows != [] {
      SaveUpdates(m[rows[0].name := rows[0]], rows[1..]);
      UpdatedByFirst(m, rows, Save(m, rows));
    }
  }

  /** The rows a process is to have journaled: what it returns so far, then the screened rows of its cell that
      are not confirmed yet. */
  function Pending(p: Process): seq<Row> {
    p.result +
    match p.active
    case Some(Active(_, screened, _, Selecting, _)) => screened
    case Some(Active(_, screened, _, Settling(next), _)) => if next <= |screened| then screened[next..] else []
    case _ => []
  }

  lemma ScreensPending(s: State, p: Process, a: Active)
    requires p.active == Some(a) && a.stage == Saving
    ensures Pending(p.(active := Some(a.(stage := Selecting)))) == p.result + a.screened
  {
  }

  lemma SettledPending(p: Process, a: Active, row: Row, next: nat)
    requires p.active == Some(a) && next <= |a.screened|
    ensures Pending(p.(result := p.result + [row], active := Some(a.(stage := Settling(next))))) ==
            p.result + [row] + a.screened[next..]
  {
  }

  lemma ResultPending(p: Process, a: Active)
    requires p.active == Some(a)
    ensures Pending(p.(active := Some(a.(stage := Settled)))) == p.result
  {
  }

  lemma PendingIgnoresMemory(p: Process, retained: Journal)
    ensures Pending(p.(retained := retained)) == Pending(p)
  {
  }

  /** A journal write of what is pending. */
  lemma WriteUpdates(s: State, p: Process, rows: seq<Row>)
    requires Pending(p) == rows
    ensures var t := WriteJournal(s, p, rows);
      t.process.Some? && t.disk.journal.Some? && Updated(p.retained, Pending(t.process.value), t.disk.journal.value)
  {
    SaveUpdates(p.retained, rows);
    PendingIgnoresMemory(p, Save(p.retained, rows));
  }

  /** The three journal writes of a cell write what is pending, the last row of a name winning. */
  lemma WritesPending(w: Library, s: State, step: CellStep)
    requires Enabled(w, s, InCell(step)) && (step.SaveScreens? || step.Settle? || step.SaveResult?)
    ensures var t := Next(w, s, InCell(step));
      && t.process.Some? && t.disk.journal.Some?
      && Updated(s.process.value.retained, Pending(t.process.value), t.disk.journal.value)
  {
    var p := s.process.value;
    var a := p.active.value;
    match step
    case SaveScreens =>
      ScreensPending(s, p, a);
      WriteUpdates(s, p.(active := Some(a.(stage := Selecting))), p.result + a.screened);
    case Settle(row) =>
      var next := a.stage.next + 1;
      SettledPending(p, a, row, next);
      WriteUpdates(s, p.(result := p.result + [row], active := Some(a.(stage := Settling(next)))),
                   p.result + [row] + a.screened[next..]);
    case SaveResult =>
      ResultPending(p, a);
      WriteUpdates(s, p.(active := Some(a.(stage := Settled))), p.result);
  }

  // --- the rows a search returns

  function Joined(parts: seq<seq<Row>>): seq<Row> {
    if parts == [] then [] else Joined(parts[..|parts| - 1]) + parts[|parts| - 1]
  }

  /** The rows some journal holds for the candidates of the cell, in the order of the candidates. */
  ghost predicate RowsOfCandidates(candidates: seq<Candidate>, m: Journal, rows: seq<Row>, places: seq<nat>) {
    && |places| == |rows|
    && (forall a, b | 0 <= a < b < |places| :: places[a] < places[b])
    && (forall a | 0 <= a < |places| ::
          && places[a] < |candidates| && HasRow(candidates[places[a]], m)
          && rows[a] == m[candidates[places[a]].id.value])
    && (forall k: nat | k < |candidates| && HasRow(candidates[k], m) :: k in places)
  }

  predicate HasRow(c: Candidate, m: Journal) {
    c.Candidate? && c.id.Some? && c.id.value in m
  }

  /** The rows of a cell that was searched: one a selection, in the order of the turns. */
  ghost predicate SearchedRows(plan: Plan, cell: Cell, rows: seq<Row>) {
    exists sel :: RecordsSelections(plan, cell, sel, false) && ScreenedOk(rows, sel)
  }

  /** The rows of a cell that was taken over: those a journal with at least these names holds for its
      candidates. */
  ghost predicate RetainedRows(cell: Cell, base: set<int>, rows: seq<Row>) {
    exists m: Journal, places: seq<nat> ::
      GoodJournal(m) && base <= m.Keys && RowsOfCandidates(cell.candidates, m, rows, places)
  }

  /** A workload with a loaded finished cell is taken over, any other is searched. */
  ghost predicate PartOf(plan: Plan, loaded: seq<Cell>, base: set<int>, workload: nat, cell: Cell, rows: seq<Row>) {
    if HasFinished(loaded, workload)
    then LastFinished(loaded, workload, cell) && RetainedRows(cell, base, rows)
    else SearchedRows(plan, cell, rows)
  }

  /** What has been confirmed of the active cell. */
  ghost predicate Confirmed(p: Process, rows: seq<Row>) {
    if p.active.None? then rows == []
    else
      var a := p.active.value;
      match a.stage
      case Settling(next) => next <= |a.picked| && ScreenedOk(rows, a.picked[..next])
      case Settled => ScreenedOk(rows, a.picked)
      case _ => rows == []
  }

  /** The rows returned so far, workload by workload. */
  ghost predicate ResultIs(w: Library, p: Process, base: set<int>, parts: seq<seq<Row>>, rows: seq<Row>) {
    && |parts| == |p.done| <= |p.search.workloads| && base <= p.retained.Keys
    && p.result == Joined(parts) + rows && Confirmed(p, rows)
    && (p.active.Some? && |p.done| < |p.search.workloads| ==> !HasFinished(p.resumable, CurrentWorkload(p)))
    && forall k | 0 <= k < |parts| ::
         PartOf(w(p.search.settings, p.search.workloads[k]), p.resumable, base, p.search.workloads[k],
                p.done[k], parts[k])
  }

  ghost predicate ResultOk(w: Library, s: State, base: set<int>) {
    s.process.Some? ==> exists parts, rows :: ResultIs(w, s.process.value, base, parts, rows)
  }

  function Later(places: seq<nat>): (r: seq<nat>)
    ensures |r| == |places| && forall a | 0 <= a < |places| :: r[a] == places[a] + 1
  {
    seq(|places|, a requires 0 <= a < |places| => places[a] + 1)
  }

  lemma LaterPlaces(c: Candidate, tail: seq<Candidate>, m: Journal, rows: seq<Row>, places: seq<nat>)
    requires RowsOfCandidates(tail, m, rows, places) && !HasRow(c, m)
    ensures RowsOfCandidates([c] + tail, m, rows, Later(places))
  {
    var all, later := [c] + tail, Later(places);
    forall k: nat | k < |all| && HasRow(all[k], m)
      ensures k in later
    {
      assert all[k] == tail[k - 1] && k - 1 in places;
      var a :| 0 <= a < |places| && places[a] == k - 1;
      assert later[a] == k;
    }
  }

  function WithFirst(places: seq<nat>): (r: seq<nat>)
    ensures |r| == |places| + 1 && r[0] == 0 && forall a | 0 < a < |r| :: r[a] == places[a - 1] + 1
  {
    [0] + Later(places)
  }

  lemma AllPlaced(c: Candidate, tail: seq<Candidate>, m: Journal, places: seq<nat>, k: nat)
    requires k < |tail| + 1 && HasRow(([c] + tail)[k], m)
    requires forall l: nat | l < |tail| && HasRow(tail[l], m) :: l in places
    ensures k in WithFirst(places)
  {
    var later := WithFirst(places);
    if k == 0 {
      assert later[0] == 0;
    } else {
      assert ([c] + tail)[k] == tail[k - 1] && k - 1 in places;
      var a :| 0 <= a < |places| && places[a] == k - 1;
      assert later[a + 1] == k;
    }
  }

  lemma FirstPlace(c: Candidate, tail: seq<Candidate>, m: Journal, rows: seq<Row>, places: seq<nat>)
    requires RowsOfCandidates(tail, m, rows, places) && HasRow(c, m)
    ensures RowsOfCandidates([c] + tail, m, [m[c.id.value]] + rows, WithFirst(places))
  {
    var all, later, more := [c] + tail, WithFirst(places), [m[c.id.value]] + rows;
    forall a | 0 <= a < |later|
      ensures later[a] < |all| && HasRow(all[later[a]], m) && more[a] == m[all[later[a]].id.value]
    {
      if a > 0 {
        assert all[later[a]] == tail[places[a - 1]] && more[a] == rows[a - 1];
      }
    }
    forall k: nat | k < |all| && HasRow(all[k], m)
      ensures k in later
    {
      AllPlaced(c, tail, m, places, k);
    }
  }

  lemma {:induction false} RowsOfIs(candidates: seq<Candidate>, m: Journal) returns (places: seq<nat>)
    ensures RowsOfCandidates(candidates, m, RowsOf(candidates, m), places)
  {
    if candidates == [] {
      places := [];
    } else {
      var c, tail := candidates[0], candidates[1..];
      var rest := RowsOfIs(tail, m);
      assert candidates == [c] + tail;
      if HasRow(c, m) {
        FirstPlace(c, tail, m, RowsOf(tail, m), rest);
        places := WithFirst(rest);
      } else {
        LaterPlaces(c, tail, m, RowsOf(tail, m), rest);
        places := Later(rest);
        assert [] + RowsOf(tail, m) == RowsOf(tail, m);
      }
    }
  }

  lemma JoinedStep(parts: seq<seq<Row>>, part: seq<Row>)
    ensures Joined(parts + [part]) == Joined(parts) + part
  {
    assert (parts + [part])[..|parts|] == parts;
  }

  /** A cell joins the finished ones with its rows. */
  lemma OnePartMore(
    w: Library, p: Process, q: Process, base: set<int>, parts: seq<seq<Row>>, rows: seq<Row>, cell: Cell,
    part: seq<Row>)
    requires ResultIs(w, p, base, parts, rows) && |p.done| < |p.search.workloads| && q.active.None?
    requires q.search == p.search && q.resumable == p.resumable && q.retained == p.retained
    requires q.done == p.done + [cell] && q.result == Joined(parts) + part
    requires PartOf(CurrentPlan(w, p), p.resumable, base, CurrentWorkload(p), cell, part)
    ensures ResultIs(w, q, base, parts + [part], [])
  {
    JoinedStep(parts, part);
    assert Joined(parts) + part + [] == Joined(parts) + part;
  }

  lemma OpenResult(w: Library, s: State, base: set<int>)
    requires Enabled(w, s, OpenCell) && ResultOk(w, s, base) && GoodJournal(s.process.value.retained)
    ensures ResultOk(w, Next(w, s, OpenCell), base)
  {
    var p, q := s.process.value, Next(w, s, OpenCell).process.value;
    var parts, rows :| ResultIs(w, p, base, parts, rows);
    FoundIsLast(p.resumable, CurrentWorkload(p));
    var finished := FindCell(p.resumable, CurrentWorkload(p), true);
    if finished.Some? {
      var part := RowsOf(finished.value.candidates, p.retained);
      var places := RowsOfIs(finished.value.candidates, p.retained);
      assert RetainedRows(finished.value, base, part);
      assert Joined(parts) + [] == Joined(parts);
      OnePartMore(w, p, q, base, parts, rows, finished.value, part);
    } else {
      OpenedResult(w, p, q, base, parts, rows);
    }
  }

  lemma OpenedResult(w: Library, p: Process, q: Process, base: set<int>, parts: seq<seq<Row>>, rows: seq<Row>)
    requires ResultIs(w, p, base, parts, rows) && p.active.None? && q.active.Some? && q.active.value.stage.Selecting?
    requires |p.done| < |p.search.workloads| && !HasFinished(p.resumable, CurrentWorkload(p))
    requires q.search == p.search && q.resumable == p.resumable && q.retained == p.retained
    requires q.result == p.result && q.done == p.done
    ensures ResultIs(w, q, base, parts, [])
  {
  }

  lemma ScreenedMore(rows: seq<Row>, picked: seq<int>, next: nat, row: Row)
    requires next < |picked| && ScreenedOk(rows, picked[..next]) && GoodRow(row) && row.name == picked[next]
    ensures ScreenedOk(rows + [row], picked[..next + 1])
  {
    forall i | 0 <= i < next
      ensures rows[i].name == picked[i]
    {
      assert picked[..next][i] == picked[i];
    }
  }

  lemma OneRowMore(
    w: Library, p: Process, q: Process, base: set<int>, parts: seq<seq<Row>>, rows: seq<Row>, row: Row)
    requires ResultIs(w, p, base, parts, rows) && Confirmed(q, rows + [row]) && p.active.Some?
    requires q.search == p.search && q.resumable == p.resumable && p.retained.Keys <= q.retained.Keys
    requires q.result == p.result + [row] && q.done == p.done
    ensures ResultIs(w, q, base, parts, rows + [row])
  {
    assert Joined(parts) + rows + [row] == Joined(parts) + (rows + [row]);
  }

  /** The row that confirmation has reached. */
  lemma SettlingRow(w: Library, s: State, row: Row)
    requires CellReady(w, s, Settle(row))
    ensures var a := s.process.value.active.value;
      a.stage.next < |a.picked| && GoodRow(row) && row.name == a.picked[a.stage.next]
  {
  }

  lemma MemoryGrows(w: Library, s: State, step: CellStep)
    requires Enabled(w, s, InCell(step))
    ensures Next(w, s, InCell(step)).process.Some?
    ensures s.process.value.retained.Keys <= Next(w, s, InCell(step)).process.value.retained.Keys
  {
    var p := s.process.value;
    match step
    case Trial(row) => KeysGrow(p.retained, [row]);
    case Confirm(row) => KeysGrow(p.retained, [row]);
    case SaveScreens => KeysGrow(p.retained, p.result + p.active.value.screened);
    case Settle(row) =>
      KeysGrow(p.retained, p.result + [row] + p.active.value.screened[p.active.value.stage.next + 1..]);
    case SaveResult => KeysGrow(p.retained, p.result);
    case _ =>
  }

  lemma KeysGrow(m: Journal, rows: seq<Row>)
    ensures m.Keys <= Save(m, rows).Keys
  {
    SaveFacts(m, rows);
    Sets.IntSubset(m.Keys, Save(m, rows).Keys);
  }

  /** What the step changes. */
  lemma SettleMoves(w: Library, s: State, row: Row, rows: seq<Row>)
    requires CellReady(w, s, Settle(row)) && Confirmed(s.process.value, rows)
    ensures Next(w, s, InCell(Settle(row))).process.Some?
    ensures var p, q := s.process.value, Next(w, s, InCell(Settle(row))).process.value;
      && q.search == p.search && q.resumable == p.resumable && q.result == p.result + [row] && q.done == p.done
      && q.active.Some? && q.active.value.picked == p.active.value.picked
      && p.active.value.stage.Settling? && q.active.value.stage == Settling(p.active.value.stage.next + 1)
      && ScreenedOk(rows, p.active.value.picked[..p.active.value.stage.next])
  {
    SettlingRow(w, s, row);
  }

  lemma SettleResult(w: Library, s: State, row: Row, base: set<int>)
    requires CellReady(w, s, Settle(row)) && ResultOk(w, s, base)
    ensures ResultOk(w, Next(w, s, InCell(Settle(row))), base)
  {
    var p := s.process.value;
    var parts, rows :| ResultIs(w, p, base, parts, rows);
    SettlingRow(w, s, row);
    SettleMoves(w, s, row, rows);
    MemoryGrows(w, s, Settle(row));
    ScreenedMore(rows, p.active.value.picked, p.active.value.stage.next, row);
    OneRowMore(w, p, Next(w, s, InCell(Settle(row))).process.value, base, parts, rows, row);
  }

  lemma CloseResult(w: Library, s: State, base: set<int>)
    requires CellReady(w, s, CloseCell) && ResultOk(w, s, base)
    ensures ResultOk(w, Next(w, s, InCell(CloseCell)), base)
  {
    var p := s.process.value;
    var plan, a := CurrentPlan(w, p), p.active.value;
    var q := Next(w, s, InCell(CloseCell)).process.value;
    var parts, rows :| ResultIs(w, p, base, parts, rows);
    LegalDistinct(plan, a.picked);
    assert RecordsSelections(plan, a.cell.(complete := true), a.picked, false);
    OnePartMore(w, p, q, base, parts, rows, a.cell.(complete := true), rows);
  }

  lemma SameResult(w: Library, p: Process, q: Process, base: set<int>, parts: seq<seq<Row>>, rows: seq<Row>)
    requires ResultIs(w, p, base, parts, rows) && Confirmed(q, rows) && p.active.Some?
    requires q.search == p.search && q.resumable == p.resumable && p.retained.Keys <= q.retained.Keys
    requires q.result == p.result && q.done == p.done
    ensures ResultIs(w, q, base, parts, rows)
  {
  }

  /** The other steps confirm nothing. */
  lemma QuietConfirmed(w: Library, s: State, step: CellStep, rows: seq<Row>)
    requires CellReady(w, s, step) && Confirmed(s.process.value, rows) && !step.Settle? && !step.CloseCell?
    ensures Confirmed(Next(w, s, InCell(step)).process.value, rows)
  {
    if step.SaveResult? {
      var picked := s.process.value.active.value.picked;
      assert picked[..|picked|] == picked;
    }
  }

  lemma QuietResult(w: Library, s: State, step: CellStep, base: set<int>)
    requires CellReady(w, s, step) && ResultOk(w, s, base) && !step.Settle? && !step.CloseCell?
    ensures ResultOk(w, Next(w, s, InCell(step)), base)
  {
    var p, q := s.process.value, Next(w, s, InCell(step)).process.value;
    var parts, rows :| ResultIs(w, p, base, parts, rows);
    MemoryGrows(w, s, step);
    QuietConfirmed(w, s, step, rows);
    SameResult(w, p, q, base, parts, rows);
  }

  lemma StepKeepsResult(w: Library, s: State, step: Step, t: State, base: set<int>)
    requires ValidLibrary(w) && Inv(w, s) && ResultOk(w, s, base) && Enabled(w, s, step) && t == Next(w, s, step)
    requires !step.Start?
    ensures ResultOk(w, t, base)
  {
    if step.OpenCell? {
      OpenResult(w, s, base);
    } else if step.InCell? {
      if step.step.Settle? {
        SettleResult(w, s, step.step.row, base);
      } else if step.step.CloseCell? {
        CloseResult(w, s, base);
      } else {
        QuietResult(w, s, step.step, base);
      }
    }
  }

  /** The names a process finds in the journal it loads. */
  function LoadedNames(s: State, start: Step): set<int>
    requires start.Start?
  {
    if start.resume && s.disk.audit.Some? then Names(s.disk.journal) else {}
  }

  lemma StartResult(w: Library, s: State, start: Step)
    requires Enabled(w, s, start) && start.Start?
    ensures ResultOk(w, Next(w, s, start), LoadedNames(s, start))
  {
    assert ResultIs(w, Next(w, s, start).process.value, LoadedNames(s, start), [], []);
  }

  ghost predicate Returning(w: Library, s: State, base: set<int>) {
    Inv(w, s) && ResultOk(w, s, base)
  }

  lemma ReturningStep(w: Library, s: State, step: Step, t: State, base: set<int>)
    requires ValidLibrary(w) && Returning(w, s, base) && Enabled(w, s, step) && t == Next(w, s, step) && !step.Start?
    ensures Returning(w, t, base)
  {
    StepKeepsInv(w, s, step);
    StepKeepsResult(w, s, step, t, base);
  }

  lemma ProcessResult(w: Library, states: seq<State>, steps: seq<Step>, i: nat, j: nat)
    requires ValidLibrary(w) && IsRun(w, states, steps) && states[0] == INITIAL && i < j < |states| && steps[i].Start?
    requires forall k | i < k < j :: !steps[k].Start?
    ensures Returning(w, states[j], LoadedNames(states[i], steps[i]))
  {
    var base, part := LoadedNames(states[i], steps[i]), states[i + 1..j + 1];
    var kept := (s: State) => Returning(w, s, base);
    RunKeepsInv(w, states, steps, i + 1);
    StartResult(w, states[i], steps[i]);
    forall k | 0 <= k < |part| - 1 && kept(part[k])
      ensures kept(part[k + 1])
    {
      ReturningStep(w, states[i + 1 + k], steps[i + 1 + k], states[i + 2 + k], base);
    }
    Along(part, kept, j - i - 1);
  }

  /** In every run from an empty directory, when a search finishes: the audit file names its binaries and
      protocol and holds one finished cell for every workload of its file, in order; and it returns, workload by
      workload, one row a selection in the order of the turns, or for a finished cell that it had loaded the
      journaled rows of its candidates. */
  lemma FinishedSearch(w: Library, states: seq<State>, steps: seq<Step>, i: nat, j: nat) returns (parts: seq<seq<Row>>)
    requires ValidLibrary(w) && IsRun(w, states, steps) && states[0] == INITIAL
    requires SameProcess(states, steps, i, j) && j < |steps| && steps[j] == Finish
    ensures states[j + 1].process.None? && states[j + 1].disk.journal == states[j].disk.journal
    ensures states[j].process.value.result == Joined(parts) && states[j + 1].disk.audit.Some?
    ensures var start, audit := steps[i], states[j + 1].disk.audit.value;
      && audit.identity == start.identity && audit.settings == start.search.settings
      && |audit.cells| == |start.search.workloads| == |parts|
      && forall k | 0 <= k < |parts| ::
           && audit.cells[k].complete && audit.cells[k].workload == start.search.workloads[k]
           && PartOf(w(audit.settings, audit.cells[k].workload), Loaded(states[i], start),
                     LoadedNames(states[i], start), audit.cells[k].workload, audit.cells[k], parts[k])
  {
    ProcessResult(w, states, steps, i, j);
    ProcessRemembers(w, states, steps, i, j);
    var p := states[j].process.value;
    var all, rows :| ResultIs(w, p, LoadedNames(states[i], steps[i]), all, rows);
    parts := all;
    assert Joined(parts) + [] == Joined(parts);
  }
}
