/** What whole runs of the search promise, crashes and restarts included: finished cells hold a complete,
    journaled record, and every cell is screened fairly and within its budget. */
module SearchGuarantees {
  import opened Sorting
  import opened Options
  import opened StratifiedOrder
  import opened ResumePrefix
  import opened Screening
  import opened SearchRuns
  import opened JournalGrowth
  import opened CellSurvival

  // --- what a finished cell records

  /** The candidate list of a finished cell records these selections; if no clock stopped it, as many as were
      requested. */
  ghost predicate RecordsSelections(plan: Plan, cell: Cell, sel: seq<int>, full: bool) {
    && cell.complete && ListOk(plan, cell.candidates) && TurnsOk(cell.candidates, sel)
    && Legal(plan, sel) && Distinct(sel)
    && cell.screened == Some(|sel|) && cell.requested == Some(Budget(plan))
    && (full ==> |sel| == Budget(plan))
  }

  ghost predicate Recorded(plan: Plan, cell: Cell, full: bool) {
    exists sel :: RecordsSelections(plan, cell, sel, full)
  }

  ghost predicate AllRecorded(w: Library, settings: nat, cells: seq<Cell>, full: bool) {
    forall cell | cell in cells && cell.complete :: Recorded(w(settings, cell.workload), cell, full)
  }

  /** What the files and the process hold about finished cells. */
  ghost predicate RecordsOk(w: Library, s: State, full: bool) {
    && (s.disk.audit.Some? ==> AllRecorded(w, s.disk.audit.value.settings, s.disk.audit.value.cells, full))
    && (s.process.Some? ==>
          var p := s.process.value;
          && AllRecorded(w, p.search.settings, p.done, full) && AllRecorded(w, p.search.settings, p.resumable, full)
          && (p.active.Some? && |p.done| < |p.search.workloads| ==>
                EndedFull(CurrentPlan(w, p), p.active.value, full)))
  }

  /** Past screening the whole budget is used. */
  ghost predicate EndedFull(plan: Plan, a: Active, full: bool) {
    full && (a.stage.Settling? || a.stage.Settled?) ==> |a.screened| == Budget(plan)
  }

  /** The cell that is about to be closed. */
  lemma ClosedIsRecorded(plan: Plan, p: Process, a: Active, journal: Option<Journal>, full: bool)
    requires ValidPlan(plan) && ActiveOk(plan, p, a, journal) && a.stage.Settled? && EndedFull(plan, a, full)
    ensures Recorded(plan, a.cell.(complete := true), full)
  {
    LegalDistinct(plan, a.picked);
    assert RecordsSelections(plan, a.cell.(complete := true), a.picked, full);
  }

  lemma OpenKeepsRecords(w: Library, s: State, full: bool)
    requires Enabled(w, s, OpenCell) && RecordsOk(w, s, full)
    ensures RecordsOk(w, Next(w, s, OpenCell), full)
  {
    FindCellFacts(s.process.value.resumable, CurrentWorkload(s.process.value), true);
  }

  lemma CloseKeepsRecords(w: Library, s: State, full: bool)
    requires CellReady(w, s, CloseCell) && RecordsOk(w, s, full)
    ensures RecordsOk(w, Next(w, s, InCell(CloseCell)), full)
  {
    var p := s.process.value;
    ClosedIsRecorded(CurrentPlan(w, p), p, p.active.value, s.disk.journal, full);
  }

  lemma InCellKeepsRecords(w: Library, s: State, step: CellStep, full: bool)
    requires Enabled(w, s, InCell(step)) && RecordsOk(w, s, full) && !step.CloseCell?
    requires !s.process.value.active.value.cell.complete && (full ==> step != EndScreening(true))
    ensures RecordsOk(w, Next(w, s, InCell(step)), full)
  {
  }

  lemma OuterStepKeepsRecords(w: Library, s: State, step: Step, full: bool)
    requires Enabled(w, s, step) && RecordsOk(w, s, full) && !step.InCell? && !step.OpenCell?
    ensures RecordsOk(w, Next(w, s, step), full)
  {
  }

  lemma StepKeepsRecords(w: Library, s: State, step: Step, full: bool)
    requires ValidLibrary(w) && Inv(w, s) && Enabled(w, s, step) && RecordsOk(w, s, full)
    requires full ==> step != InCell(EndScreening(true))
    ensures RecordsOk(w, Next(w, s, step), full)
  {
    if step.OpenCell? {
      OpenKeepsRecords(w, s, full);
    } else if !step.InCell? {
      OuterStepKeepsRecords(w, s, step, full);
    } else if step.step.CloseCell? {
      CloseKeepsRecords(w, s, full);
    } else {
      ProcessShape(w, s);
      InCellKeepsRecords(w, s, step.step, full);
    }
  }

  ghost predicate Documented(w: Library, s: State, full: bool) {
    Inv(w, s) && RecordsOk(w, s, full)
  }

  lemma DocumentedStep(w: Library, s: State, step: Step, full: bool)
    requires ValidLibrary(w) && Documented(w, s, full) && Enabled(w, s, step)
    requires full ==> step != InCell(EndScreening(true))
    ensures Documented(w, Next(w, s, step), full)
  {
    StepKeepsInv(w, s, step);
    StepKeepsRecords(w, s, step, full);
  }

  /** In every run from an empty directory, whatever its restarts, a finished cell on disk records a legal
      sequence of distinct selections, as long as its screened count; and if no clock stopped a cell, exactly
      as many as were requested. */
  lemma FinishedCellIsComplete(w: Library, states: seq<State>, steps: seq<Step>, i: nat, cell: Cell, full: bool)
    requires ValidLibrary(w) && IsRun(w, states, steps) && states[0] == INITIAL && i < |states|
    requires full ==> NoClock(steps)
    requires states[i].disk.audit.Some? && cell in states[i].disk.audit.value.cells && cell.complete
    ensures var plan := w(states[i].disk.audit.value.settings, cell.workload);
      && Recorded(plan, cell, full)
      && cell.screened.Some? && cell.requested == Some(
           |plan.seeds| + if 0 < plan.searchBudget < |plan.order| then plan.searchBudget else |plan.order|)
      && cell.screened.value <= cell.requested.value && (full ==> cell.screened == cell.requested)
  {
    var kept := (s: State) => Documented(w, s, full);
    assert kept(INITIAL);
    forall j | 0 <= j < |steps| && kept(states[j])
      ensures kept(states[j + 1])
    {
      DocumentedStep(w, states[j], steps[j], full);
    }
    Along(states, kept, i);
    RecordedCount(w(states[i].disk.audit.value.settings, cell.workload), cell, full);
  }

  lemma RecordedCount(plan: Plan, cell: Cell, full: bool)
    requires Recorded(plan, cell, full)
    ensures cell.screened.Some? && cell.requested == Some(
              |plan.seeds| + if 0 < plan.searchBudget < |plan.order| then plan.searchBudget else |plan.order|)
    ensures cell.screened.value <= cell.requested.value && (full ==> cell.screened == cell.requested)
  {
    BudgetIs(plan);
  }

  // --- and that its selections are journaled

  /** Every selection that the cell records has its name in the journal. */
  predicate Journaled(cell: Cell, names: set<int>) {
    forall c | c in cell.candidates && c.Candidate? && c.selectionIndex.Some? :: c.id.Some? && c.id.value in names
  }

  predicate AllJournaled(cells: seq<Cell>, names: set<int>) {
    forall cell | cell in cells && cell.complete :: Journaled(cell, names)
  }

  /** No finished cell waits for a row. */
  predicate CellsJournaled(s: State) {
    && (s.disk.audit.Some? ==> AllJournaled(s.disk.audit.value.cells, Names(s.disk.journal)))
    && (s.process.Some? ==>
          && AllJournaled(s.process.value.done, Names(s.disk.journal))
          && AllJournaled(s.process.value.resumable, Names(s.disk.journal)))
  }

  ghost predicate RowsOnDisk(w: Library, s: State) {
    Inv(w, s) && JournalInOrder(w, s) && CellsJournaled(s)
  }

  lemma ClosedIsJournaled(plan: Plan, p: Process, a: Active, journal: Option<Journal>)
    requires ActiveOk(plan, p, a, journal) && a.stage.Settled?
    ensures Journaled(a.cell.(complete := true), Names(journal))
  {
    forall c | c in a.cell.candidates && c.Candidate? && c.selectionIndex.Some?
      ensures c.id.Some? && c.id.value in Names(journal)
    {
      assert TurnIsSelection(c, a.picked);
    }
  }

  lemma OpenKeepsRows(w: Library, s: State)
    requires Enabled(w, s, OpenCell) && CellsJournaled(s)
    ensures CellsJournaled(Next(w, s, OpenCell))
  {
    FindCellFacts(s.process.value.resumable, CurrentWorkload(s.process.value), true);
  }

  lemma CloseKeepsRows(w: Library, s: State)
    requires CellReady(w, s, CloseCell) && CellsJournaled(s)
    ensures CellsJournaled(Next(w, s, InCell(CloseCell)))
  {
    var p := s.process.value;
    ClosedIsJournaled(CurrentPlan(w, p), p, p.active.value, s.disk.journal);
  }

  lemma InCellKeepsRows(w: Library, s: State, step: CellStep, t: State)
    requires Enabled(w, s, InCell(step)) && BeforeAudit(w, s) && CellsJournaled(s) && !step.CloseCell?
    requires !s.process.value.active.value.cell.complete
    requires t == Next(w, s, InCell(step)) && NamesKept(s, t)
    ensures CellsJournaled(t)
  {
    assert t.process.value.done == s.process.value.done;
    if !step.Screen? {
      assert t.disk.audit == s.disk.audit;
    }
  }

  lemma OuterStepKeepsRows(w: Library, s: State, step: Step)
    requires Enabled(w, s, step) && CellsJournaled(s) && !step.InCell? && !step.OpenCell?
    ensures CellsJournaled(Next(w, s, step))
  {
  }

  lemma StepKeepsRows(w: Library, s: State, step: Step, t: State)
    requires ValidLibrary(w) && RowsOnDisk(w, s) && Enabled(w, s, step)
    requires t == Next(w, s, step) && NamesKept(s, t)
    ensures CellsJournaled(t)
  {
    if step.OpenCell? {
      OpenKeepsRows(w, s);
    } else if !step.InCell? {
      OuterStepKeepsRows(w, s, step);
    } else if step.step.CloseCell? {
      CloseKeepsRows(w, s);
    } else {
      ProcessShape(w, s);
      InCellKeepsRows(w, s, step.step, t);
    }
  }

  lemma RowsOnDiskStep(w: Library, s: State, step: Step, t: State)
    requires ValidLibrary(w) && RowsOnDisk(w, s) && Enabled(w, s, step) && GuardedOnceAudited(w, s, step)
    requires t == Next(w, s, step)
    ensures RowsOnDisk(w, t)
  {
    StepKeepsInv(w, s, step);
    StepKeepsOrder(w, s, step);
    StepKeepsRows(w, s, step, t);
  }

  /** In every run from an empty directory whose restarts satisfy SafeOnceAudited, such as one that always
      resumes the same search, every selection of a finished cell on disk is in the journal. */
  lemma FinishedCellIsJournaled(w: Library, states: seq<State>, steps: seq<Step>, i: nat, cell: Cell)
    requires ValidLibrary(w) && IsRun(w, states, steps) && states[0] == INITIAL && i < |states|
    requires forall j | 0 <= j < |steps| :: GuardedOnceAudited(w, states[j], steps[j])
    requires states[i].disk.audit.Some? && cell in states[i].disk.audit.value.cells && cell.complete
    ensures Journaled(cell, Names(states[i].disk.journal))
  {
    var kept := (s: State) => RowsOnDisk(w, s);
    assert kept(INITIAL);
    forall j | 0 <= j < |steps| && kept(states[j])
      ensures kept(states[j + 1])
    {
      RowsOnDiskStep(w, states[j], steps[j], states[j + 1]);
    }
    Along(states, kept, i);
  }

  /** A search that is always resumed as it is: a cell once finished stays in the audit file, unchanged and at
      its place, with a complete record whose selections are all in the journal. */
  lemma FinishedForGood(
    w: Library, states: seq<State>, steps: seq<Step>, search: Search, i: nat, j: nat, k: nat)
    requires ValidLibrary(w) && IsRun(w, states, steps) && states[0] == INITIAL && SameSearch(steps, search)
    requires NoRepeats(search.workloads) && i <= j < |states| && k < FinishedInAudit(states[i])
    ensures states[j].disk.audit.Some? && k < |states[j].disk.audit.value.cells| && k < |search.workloads|
    ensures var cell := states[i].disk.audit.value.cells[k];
      && states[j].disk.audit.value.cells[k] == cell
      && Recorded(w(search.settings, search.workloads[k]), cell, false)
      && Journaled(cell, Names(states[j].disk.journal))
  {
    var cell := states[i].disk.audit.value.cells[k];
    EmptyIsSearching(w, search);
    FinishedCellsSurvive(w, states, steps, search, i, j);
    StaysSearching(w, states, steps, search, j);
    FinishedCellIsComplete(w, states, steps, j, cell, false);
    SameSearchIsSafe(w, states, steps, search);
    FinishedCellIsJournaled(w, states, steps, j, cell);
  }

  // --- what every cell of every run screens

  /** In every reachable state the rows screened so far are the history, without repetition and in
      legal turns, so the starvation bound holds through crashes and resumes. */
  lemma ScreenedFairly(w: Library, states: seq<State>, steps: seq<Step>, i: nat, t: nat, j: nat) returns (r: nat)
    requires ValidLibrary(w) && IsRun(w, states, steps) && states[0] == INITIAL && i < |states|
    requires states[i].process.Some? && states[i].process.value.active.Some?
    requires var p := states[i].process.value; |p.done| < |p.search.workloads|
    requires var plan, a := CurrentPlan(w, states[i].process.value), states[i].process.value.active.value;
      |a.screened| > |plan.seeds| + 4 * t && j <= t && j < |plan.order|
    ensures var plan, a := CurrentPlan(w, states[i].process.value), states[i].process.value.active.value;
      r < |a.screened| && a.screened[r].name == plan.order[j].id
  {
    RunKeepsInv(w, states, steps, i);
    var p := states[i].process.value;
    var plan, a := CurrentPlan(w, p), p.active.value;
    PickedLegal(plan, p, a, states[i].disk.journal);
    StarvationBound(plan, a.picked, t);
    assert plan.order[j].id in a.picked;
    r :| 0 <= r < |a.picked| && a.picked[r] == plan.order[j].id;
  }

  lemma PickedLegal(plan: Plan, p: Process, a: Active, journal: Option<Journal>)
    requires ActiveOk(plan, p, a, journal)
    ensures Legal(plan, a.picked)
  {
    if a.stage.Measuring? {
      LegalPrefix(plan, a.picked + [a.stage.point.id], |a.picked|);
      assert (a.picked + [a.stage.point.id])[..|a.picked|] == a.picked;
    }
  }

  /** Which turn comes next: in every reachable selecting state the screened rows number at most the seeds and
      the requested library points. A turn is possible while they are fewer; it measures the next seed, and then
      any entry of the frontier, but the first on every fourth turn. Without the clock screening ends exactly
      when the number is reached. */
  lemma TurnsAreFree(w: Library, states: seq<State>, steps: seq<Step>, i: nat, k: nat)
    requires ValidLibrary(w) && IsRun(w, states, steps) && states[0] == INITIAL && i < |states|
    requires states[i].process.Some? && states[i].process.value.active.Some?
    requires states[i].process.value.active.value.stage.Selecting?
    ensures var s, choose, p := states[i], InCell(Choose(k)), states[i].process.value;
      && |p.done| < |p.search.workloads|
      && var plan, a := w(p.search.settings, p.search.workloads[|p.done|]), p.active.value;
         var seeds, n := |plan.seeds|, |a.screened|;
         var wanted := if 0 < plan.searchBudget < |plan.order| then plan.searchBudget else |plan.order|;
         && n <= seeds + wanted
         && (Enabled(w, s, choose) <==>
               n < seeds + wanted && (n < seeds || (k < |a.remaining| && ((n - seeds) % 4 == 0 ==> k == 0))))
         && (Enabled(w, s, choose) ==>
               NowMeasures(Next(w, s, choose), if n < seeds then plan.seeds[n] else a.remaining[k]))
         && (Enabled(w, s, InCell(EndScreening(false))) <==> n == seeds + wanted)
  {
    RunKeepsInv(w, states, steps, i);
    BudgetIs(CurrentPlan(w, states[i].process.value));
  }

  ghost predicate NowMeasures(s: State, point: Point) {
    s.process.Some? && s.process.value.active.Some? && s.process.value.active.value.stage == Measuring(point)
  }

  /** A search that is not stopped by the clock always has a next choice until the budget is used
      up, and then has screened exactly that many pairwise distinct candidates. */
  lemma BudgetIsExact(w: Library, states: seq<State>, steps: seq<Step>, i: nat)
    requires ValidLibrary(w) && IsRun(w, states, steps) && states[0] == INITIAL && i < |states|
    requires states[i].process.Some? && states[i].process.value.active.Some?
    requires states[i].process.value.active.value.stage.Selecting?
    ensures var p := states[i].process.value;
      && |p.done| < |p.search.workloads|
      && var plan, a := w(p.search.settings, p.search.workloads[|p.done|]), p.active.value;
         var n := |plan.seeds| + if 0 < plan.searchBudget < |plan.order| then plan.searchBudget else |plan.order|;
         && |a.screened| == |a.picked| <= n && Distinct(a.picked)
         && (|a.screened| < n <==> Enabled(w, states[i], InCell(Choose(0))))
         && (|a.screened| == n <==> Enabled(w, states[i], InCell(EndScreening(false))))
  {
    RunKeepsInv(w, states, steps, i);
    var p := states[i].process.value;
    var plan, a := CurrentPlan(w, p), p.active.value;
    BudgetIs(plan);
    LegalDistinct(plan, a.picked);
    if |plan.seeds| <= |a.picked| < Budget(plan) {
      NeverRunsOut(plan, a.picked);
    }
  }
}
