/** What a process does with the cells it has loaded: it takes over the finished ones, continues the unfinished
    one where its records and the journal allow, and opens every other cell afresh. */
module Resumption {
  import opened Sorting
  import opened Options
  import opened StratifiedOrder
  import opened ResumePrefix
  import opened Screening
  import opened SearchRuns
  import opened JournalGrowth

  /** States i and j belong to the process started at step i. */
  ghost predicate SameProcess(states: seq<State>, steps: seq<Step>, i: nat, j: nat) {
    && i < j < |states| && |states| == |steps| + 1 && steps[i].Start? && states[j].process.Some?
    && forall k | i < k < j :: !steps[k].Start?
  }

  /** The cells a process loads at its start. */
  function Loaded(s: State, start: Step): seq<Cell>
    requires start.Start?
  {
    if && start.resume && s.disk.journal.Some? && s.disk.audit.Some?
       && s.disk.audit.value.settings == start.search.settings
    then s.disk.audit.value.cells else []
  }

  /** The process still knows what it has loaded. */
  ghost predicate Remembers(t: State, start: Step, cells: seq<Cell>, log: seq<int>)
    requires start.Start?
  {
    t.process.Some? ==>
      && t.process.value.search == start.search && t.process.value.identity == start.identity
      && t.process.value.resumable == cells && t.process.value.history == log
  }

  lemma StepRemembers(w: Library, t: State, step: Step, start: Step, cells: seq<Cell>, log: seq<int>)
    requires Enabled(w, t, step) && !step.Start? && start.Start? && Remembers(t, start, cells, log)
    ensures Remembers(Next(w, t, step), start, cells, log)
  {
  }

  lemma {:induction false} ProcessRemembers(w: Library, states: seq<State>, steps: seq<Step>, i: nat, j: nat)
    requires IsRun(w, states, steps) && i < j < |states| && steps[i].Start?
    requires forall k | i < k < j :: !steps[k].Start?
    ensures Remembers(states[j], steps[i], Loaded(states[i], steps[i]), states[i].log)
    decreases j
  {
    if i + 1 < j {
      ProcessRemembers(w, states, steps, i, j - 1);
      StepRemembers(w, states[j - 1], steps[j - 1], steps[i], Loaded(states[i], steps[i]), states[i].log);
    }
  }

  // --- what is loaded for a workload

  /** The last finished cell of the workload. */
  ghost predicate LastFinished(cells: seq<Cell>, workload: nat, cell: Cell) {
    exists k :: 0 <= k < |cells| && cells[k] == cell && cell.complete && cell.workload == workload
                && forall l | k < l < |cells| :: !(cells[l].complete && cells[l].workload == workload)
  }

  ghost predicate HasFinished(cells: seq<Cell>, workload: nat) {
    exists c :: c in cells && c.complete && c.workload == workload
  }

  lemma {:induction false} FoundIsLast(cells: seq<Cell>, workload: nat)
    ensures var found := FindCell(cells, workload, true);
      && (found.Some? <==> HasFinished(cells, workload))
      && (found.Some? ==> LastFinished(cells, workload, found.value))
    decreases |cells|
  {
    if cells != [] {
      var init, last := cells[..|cells| - 1], cells[|cells| - 1];
      assert cells == init + [last];
      FoundIsLast(init, workload);
      if last.complete && last.workload == workload {
        assert LastFinished(cells, workload, last);
      } else {
        var found := FindCell(init, workload, true);
        if found.Some? {
          var k :| 0 <= k < |init| && init[k] == found.value
                   && forall l | k < l < |init| :: !(init[l].complete && init[l].workload == workload);
          assert cells[k] == found.value;
        }
        assert HasFinished(cells, workload) ==> HasFinished(init, workload);
      }
    }
  }

  /** The last loaded cell is unfinished and belongs to the workload. */
  predicate LoadedUnfinished(cells: seq<Cell>, workload: nat) {
    cells != [] && !cells[|cells| - 1].complete && cells[|cells| - 1].workload == workload
  }

  /** Every selection of the history has its row. */
  predicate AllJournaled(log: seq<int>, journal: Option<Journal>) {
    journal.Some? && forall x | 0 <= x < |log| :: log[x] in journal.value
  }

  // --- opening a cell

  /** The cell continues: the rows screened are the journal's rows of the recorded selections in order, the
      frontier is the order without them, and the candidate list is the recorded one. */
  ghost predicate Continues(plan: Plan, a: Active, cell: Cell, log: seq<int>, journal: Journal) {
    && a.stage == Selecting && a.picked == log
    && |a.screened| == |log|
    && (forall x | 0 <= x < |log| :: log[x] in journal && a.screened[x] == journal[log[x]])
    && FrontierOf(plan, a.remaining, log)
    && a.cell.workload == cell.workload && a.cell.candidates == cell.candidates && !a.cell.complete
    && a.cell.screened == Some(|log|)
  }

  /** The points of the order whose identities are not taken, in the same order. */
  ghost predicate FrontierOf(plan: Plan, frontier: seq<Point>, taken: seq<int>) {
    && (forall p :: p in frontier <==> p in plan.order && p.id !in taken)
    && (forall i, j | 0 <= i < j < |frontier| :: StandBefore(plan.order, frontier[i], frontier[j]))
    && DistinctIds(frontier)
  }

  /** The cell starts from nothing: no row, the whole order, and every listed point as a candidate without a
      turn. */
  ghost predicate StartsAfresh(plan: Plan, a: Active, workload: nat) {
    && a.stage == Selecting && a.picked == [] && a.screened == [] && a.remaining == plan.order
    && a.cell.workload == workload && !a.cell.complete && a.cell.screened == Some(0)
    && |a.cell.candidates| == |plan.inventory|
    && forall k | 0 <= k < |plan.inventory| ::
         a.cell.candidates[k] == Candidate(Some(plan.inventory[k].id), Some(plan.inventory[k]), None)
  }

  lemma FrontierFacts(plan: Plan, taken: seq<int>)
    requires ValidPlan(plan)
    ensures FrontierOf(plan, Unscreened(plan.order, taken), taken)
  {
    var frontier := Unscreened(plan.order, taken);
    OrderIdsDistinct(plan);
    FrontierDistinct(plan.order, taken);
    UnscreenedMembers(plan.order, taken);
    forall i, j | 0 <= i < j < |frontier|
      ensures StandBefore(plan.order, frontier[i], frontier[j])
    {
      FrontierOrder(plan.order, taken, i, j);
    }
  }

  /** The loaded unfinished cell can be continued exactly when its rows are all there. */
  lemma ContinuableIff(w: Library, p: Process, journal: Option<Journal>)
    requires ValidLibrary(w) && |p.done| < |p.search.workloads| && CellsOk(w, p.search.settings, p.resumable, p.history)
    requires journal == Some(p.retained) && GoodJournal(p.retained)
    ensures ResumesFast(CurrentPlan(w, p), p) <==>
            LoadedUnfinished(p.resumable, CurrentWorkload(p)) && AllJournaled(p.history, journal)
    ensures LoadedUnfinished(p.resumable, CurrentWorkload(p)) ==>
            FindCell(p.resumable, CurrentWorkload(p), false) == Some(p.resumable[|p.resumable| - 1])
  {
    var workload := CurrentWorkload(p);
    FindCellFacts(p.resumable, workload, false);
    if LoadedUnfinished(p.resumable, workload) {
      var cell := p.resumable[|p.resumable| - 1];
      assert FindCell(p.resumable, workload, false) == Some(cell);
      RecoverableWhenJournaled(CurrentPlan(w, p), cell, p.history, p.retained);
      if Recoverable(cell, p.retained) {
        var prefix := RecoveredPrefix(cell, p.retained).value;
        PrefixIsHistory(CurrentPlan(w, p), cell, p.history, p.retained, prefix);
      }
    }
  }

  lemma ResumedContinues(w: Library, p: Process, journal: Option<Journal>)
    requires ValidLibrary(w) && |p.done| < |p.search.workloads| && CellsOk(w, p.search.settings, p.resumable, p.history)
    requires journal == Some(p.retained) && GoodJournal(p.retained)
    requires LoadedUnfinished(p.resumable, CurrentWorkload(p)) && ResumesFast(CurrentPlan(w, p), p)
    ensures Continues(CurrentPlan(w, p), Resumed(CurrentPlan(w, p), p), p.resumable[|p.resumable| - 1], p.history,
                      p.retained)
  {
    var plan, cell := CurrentPlan(w, p), p.resumable[|p.resumable| - 1];
    ContinuableIff(w, p, journal);
    var prefix := RecoveredPrefix(cell, p.retained).value;
    PrefixIsHistory(plan, cell, p.history, p.retained, prefix);
    NothingMissing(plan.inventory, cell.candidates);
    assert cell.candidates + [] == cell.candidates;
    assert seq(|prefix|, i requires 0 <= i < |prefix| => prefix[i].configuration.id) == p.history;
    FrontierFacts(plan, p.history);
  }

  /** What opening a cell does to a process that has loaded these cells. */
  ghost predicate OpensRightly(plan: Plan, workload: nat, cells: seq<Cell>, log: seq<int>, t: State, u: State)
    requires t.process.Some?
  {
    var p := t.process.value;
    && u.disk == t.disk && u.process.Some?
    && var q := u.process.value;
       if HasFinished(cells, workload) then
         && q.active.None? && |q.done| == |p.done| + 1 && p.done <= q.done
         && LastFinished(cells, workload, q.done[|p.done|])
       else
         && q.done == p.done && q.active.Some?
         && if LoadedUnfinished(cells, workload) && AllJournaled(log, t.disk.journal)
            then Continues(plan, q.active.value, cells[|cells| - 1], log, t.disk.journal.value)
            else StartsAfresh(plan, q.active.value, workload)
  }

  lemma OpensByMemory(w: Library, t: State)
    requires ValidLibrary(w) && Inv(w, t) && Enabled(w, t, OpenCell)
    ensures var p := t.process.value;
      OpensRightly(CurrentPlan(w, p), CurrentWorkload(p), p.resumable, p.history, t, Next(w, t, OpenCell))
  {
    var p := t.process.value;
    FoundIsLast(p.resumable, CurrentWorkload(p));
    if p.resumable != [] {
      ContinuableIff(w, p, t.disk.journal);
      if LoadedUnfinished(p.resumable, CurrentWorkload(p)) && AllJournaled(p.history, t.disk.journal) {
        ResumedContinues(w, p, t.disk.journal);
      }
    }
  }

  /** In every run from an empty directory, whatever its restarts and workload files: when a process opens a cell,
      it takes over the last finished cell of the workload that it loaded at its start; if there is none and the
      loaded unfinished cell belongs to the workload and all its recorded selections are journaled, it continues
      that cell after them; and otherwise it starts the cell afresh. */
  lemma OpeningFollowsTheFiles(w: Library, states: seq<State>, steps: seq<Step>, i: nat, j: nat)
    requires ValidLibrary(w) && IsRun(w, states, steps) && states[0] == INITIAL
    requires SameProcess(states, steps, i, j) && j < |steps| && steps[j] == OpenCell
    ensures var search, k := steps[i].search, |states[j].process.value.done|;
      && k < |search.workloads|
      && OpensRightly(w(search.settings, search.workloads[k]), search.workloads[k], Loaded(states[i], steps[i]),
                      states[i].log, states[j], states[j + 1])
  {
    RunKeepsInv(w, states, steps, j);
    ProcessRemembers(w, states, steps, i, j);
    OpensByMemory(w, states[j]);
  }

  /** The process resumes the interrupted search and every recorded selection has its row. */
  ghost predicate ResumesInterrupted(s: State, start: Step) {
    && start.Start? && start.resume && Interrupted(s) && s.disk.audit.value.settings == start.search.settings
    && AllJournaled(s.log, s.disk.journal)
  }

  /** A process that resumes an interrupted search continues its cell where it stopped: with the rows the journal
      holds for the recorded selections, in their order, and the frontier without them. */
  lemma InterruptedCellContinues(w: Library, states: seq<State>, steps: seq<Step>, i: nat, j: nat)
    requires ValidLibrary(w) && IsRun(w, states, steps) && states[0] == INITIAL
    requires SameProcess(states, steps, i, j) && j < |steps| && steps[j] == OpenCell
    requires ResumesInterrupted(states[i], steps[i])
    requires var search, cell := steps[i].search, UnfinishedCell(states[i]);
      && |states[j].process.value.done| < |search.workloads|
      && search.workloads[|states[j].process.value.done|] == cell.workload
      && !HasFinished(states[i].disk.audit.value.cells, cell.workload)
    ensures states[j].disk.journal.Some? && states[j + 1].process.Some? && states[j + 1].process.value.active.Some?
    ensures var cell := UnfinishedCell(states[i]);
      Continues(w(steps[i].search.settings, cell.workload), states[j + 1].process.value.active.value, cell,
                states[i].log, states[j].disk.journal.value)
  {
    OpeningFollowsTheFiles(w, states, steps, i, j);
    RunKeepsInv(w, states, steps, i);
    RowsStay(w, states, steps, i, j);
  }

  lemma RowsStay(w: Library, states: seq<State>, steps: seq<Step>, i: nat, j: nat)
    requires IsRun(w, states, steps) && SameProcess(states, steps, i, j) && ResumesInterrupted(states[i], steps[i])
    requires states[i].log != []
    ensures AllJournaled(states[i].log, states[j].disk.journal)
  {
    var part, path := states[i..j + 1], steps[i..j];
    forall k | 0 <= k < |path|
      ensures Enabled(w, part[k], path[k]) && part[k + 1] == Next(w, part[k], path[k]) && Guarded(part[k], path[k])
    {
      assert part[k] == states[i + k] && part[k + 1] == states[i + k + 1] && path[k] == steps[i + k];
    }
    SafeRestartsKeepNames(w, part, path, 0, j - i);
    assert part[0] == states[i] && part[j - i] == states[j];
    forall x | 0 <= x < |states[i].log|
      ensures states[i].log[x] in Names(states[j].disk.journal)
    {
      assert states[i].log[x] in Names(states[i].disk.journal);
    }
    assert states[i].log[0] in Names(states[j].disk.journal);
  }
}
