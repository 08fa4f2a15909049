/** Which finished cells survive a restart: those of a search that is resumed as it is, and of a resume with
    another workload file, which the audit file does not record. */
module CellSurvival {
  import opened Sorting
  import opened Options
  import opened StratifiedOrder
  import opened ResumePrefix
  import opened Screening
  import opened SearchRuns
  import opened JournalGrowth

  function FinishedCells(cells: seq<Cell>): nat {
    if HasUnfinished(cells) then |cells| - 1 else |cells|
  }

  function FinishedInAudit(s: State): nat {
    if s.disk.audit.Some? then FinishedCells(s.disk.audit.value.cells) else 0
  }

  // --- the same search

  /** The cells stand in the order of the workload file. */
  predicate InOrder(cells: seq<Cell>, workloads: seq<nat>) {
    |cells| <= |workloads| && forall k | 0 <= k < |cells| :: cells[k].workload == workloads[k]
  }

  predicate NoRepeats(workloads: seq<nat>) {
    forall j, k | 0 <= j < k < |workloads| :: workloads[j] != workloads[k]
  }

  /** The files belong to this search and can be resumed from, and the process has taken over, or will take
      over, every finished cell of the audit file as it is. */
  ghost predicate TakesOver(s: State, search: Search) {
    && (s.disk.audit.Some? ==>
          s.disk.audit.value.settings == search.settings && InOrder(s.disk.audit.value.cells, search.workloads))
    && (FinishedInAudit(s) > 0 ==> s.disk.journal.Some?)
    && (s.process.Some? ==> ProcessTakesOver(s, s.process.value, search))
  }

  ghost predicate ProcessTakesOver(s: State, p: Process, search: Search) {
    && p.search == search && InOrder(p.resumable, search.workloads)
    && (p.done != [] || (p.active.Some? && p.active.value.stage.Settled?) ==> s.disk.journal.Some?)
    && (p.active.None? && |p.done| < |p.resumable| ==>
          s.disk.audit.Some? && s.disk.audit.value.cells == p.resumable)
    && (p.active.Some? ==> |p.resumable| <= |p.done| + 1)
    && (p.active.Some? || |p.done| >= |p.resumable| ==> FinishedInAudit(s) <= |p.done|)
    && (forall k | 0 <= k < |p.done| && k < FinishedInAudit(s) :: p.done[k] == s.disk.audit.value.cells[k])
  }

  /** Every finished cell of the one audit file is in the other, unchanged and at its place. */
  ghost predicate CellsKept(s: State, t: State) {
    && FinishedInAudit(s) <= FinishedInAudit(t)
    && forall k | 0 <= k < FinishedInAudit(s) :: t.disk.audit.value.cells[k] == s.disk.audit.value.cells[k]
  }

  /** Without repetitions the dictionary of a workload holds the cell at its place. */
  lemma FindCellAt(cells: seq<Cell>, workloads: seq<nat>, i: nat, complete: bool)
    requires InOrder(cells, workloads) && NoRepeats(workloads) && i < |workloads|
    ensures FindCell(cells, workloads[i], complete) ==
            if i < |cells| && cells[i].complete == complete then Some(cells[i]) else None
  {
    FindCellFacts(cells, workloads[i], complete);
    var found := FindCell(cells, workloads[i], complete);
    if found.Some? {
      var k :| 0 <= k < |cells| && cells[k] == found.value;
      assert workloads[k] == workloads[i];
    }
  }

  predicate AllButLast(cells: seq<Cell>) {
    forall k | 0 <= k < |cells| - 1 :: cells[k].complete
  }

  lemma ProcessShape(w: Library, s: State)
    requires Inv(w, s) && s.process.Some?
    ensures DoneOk(s.process.value) && AllButLast(s.process.value.resumable)
    ensures var p := s.process.value;
      p.active.Some? ==> !p.active.value.cell.complete && p.active.value.cell.workload == CurrentWorkload(p)
  {
  }

  lemma OpenKeepsCells(w: Library, s: State, search: Search)
    requires Enabled(w, s, OpenCell) && TakesOver(s, search) && NoRepeats(search.workloads)
    requires AllButLast(s.process.value.resumable)
    ensures TakesOver(Next(w, s, OpenCell), search) && CellsKept(s, Next(w, s, OpenCell))
  {
    var p := s.process.value;
    FindCellAt(p.resumable, search.workloads, |p.done|, true);
  }

  lemma InCellKeepsCells(w: Library, s: State, step: CellStep, search: Search)
    requires Enabled(w, s, InCell(step)) && TakesOver(s, search) && DoneOk(s.process.value)
    requires var p := s.process.value;
      !p.active.value.cell.complete && p.active.value.cell.workload == CurrentWorkload(p)
    ensures TakesOver(Next(w, s, InCell(step)), search) && CellsKept(s, Next(w, s, InCell(step)))
  {
  }

  lemma StepKeepsCells(w: Library, s: State, step: Step, search: Search)
    requires Inv(w, s) && Enabled(w, s, step) && TakesOver(s, search) && NoRepeats(search.workloads)
    requires step.Start? ==> step.resume && step.search == search
    ensures TakesOver(Next(w, s, step), search) && CellsKept(s, Next(w, s, step))
  {
    match step
    case OpenCell =>
      ProcessShape(w, s);
      OpenKeepsCells(w, s, search);
    case InCell(step) =>
      ProcessShape(w, s);
      InCellKeepsCells(w, s, step, search);
    case _ =>
  }

  ghost predicate Searching(w: Library, s: State, search: Search) {
    Inv(w, s) && TakesOver(s, search)
  }

  lemma SearchingStep(w: Library, s: State, step: Step, search: Search)
    requires ValidLibrary(w) && Searching(w, s, search) && Enabled(w, s, step) && NoRepeats(search.workloads)
    requires step.Start? ==> step.resume && step.search == search
    ensures Searching(w, Next(w, s, step), search) && CellsKept(s, Next(w, s, step))
  {
    StepKeepsInv(w, s, step);
    StepKeepsCells(w, s, step, search);
  }

  lemma StaysSearching(w: Library, states: seq<State>, steps: seq<Step>, search: Search, i: nat)
    requires ValidLibrary(w) && IsRun(w, states, steps) && i < |states| && SameSearch(steps, search)
    requires NoRepeats(search.workloads) && Searching(w, states[0], search)
    ensures Searching(w, states[i], search)
  {
    var kept := (s: State) => Searching(w, s, search);
    forall k | 0 <= k < |steps| && kept(states[k])
      ensures kept(states[k + 1])
    {
      SearchingStep(w, states[k], steps[k], search);
    }
    Along(states, kept, i);
  }

  lemma CellsKeptTransitive(s: State, t: State, u: State)
    requires CellsKept(s, t) && CellsKept(t, u)
    ensures CellsKept(s, u)
  {
  }

  /** An empty directory is where any search can begin. */
  lemma EmptyIsSearching(w: Library, search: Search)
    ensures Searching(w, INITIAL, search)
  {
  }

  /** Across any number of crashes and resumes of one search, whose workload file lists no workload twice,
      every finished cell stays in the audit file, unchanged and at its place. */
  lemma FinishedCellsSurvive(
    w: Library, states: seq<State>, steps: seq<Step>, search: Search, i: nat, j: nat)
    requires ValidLibrary(w) && IsRun(w, states, steps) && i <= j < |states| && SameSearch(steps, search)
    requires NoRepeats(search.workloads) && Searching(w, states[0], search)
    ensures CellsKept(states[i], states[j])
  {
    StaysSearching(w, states, steps, search, i);
    var kept := (s: State) => Searching(w, s, search) && CellsKept(states[i], s);
    forall k | 0 <= k < |steps| - i && kept(states[i..][k])
      ensures kept(states[i..][k + 1])
    {
      SearchingStep(w, states[i + k], steps[i + k], search);
      CellsKeptTransitive(states[i], states[i + k], states[i + k + 1]);
    }
    Along(states[i..], kept, j - i);
  }

  // --- another workload file

  function FinishedWorkloads(cells: seq<Cell>): set<nat> {
    set c | c in cells && c.complete :: c.workload
  }

  function Elements(workloads: seq<nat>): set<nat> {
    set x | x in workloads
  }

  /** A prefix of the list consists of exactly these workloads. */
  ghost predicate FinishedFirst(workloads: seq<nat>, finished: set<nat>) {
    exists n :: 0 <= n <= |workloads| && Elements(workloads[..n]) == finished
  }

  /** A resume that loads these cells. */
  ghost predicate Loads(s: State, search: Search, cells: seq<Cell>) {
    && s.disk.audit.Some? && s.disk.journal.Some?
    && s.disk.audit.value.settings == search.settings && s.disk.audit.value.cells == cells
  }

  /** What the dictionary of finished cells holds is the same. */
  ghost predicate SameFinished(before: seq<Cell>, cells: seq<Cell>) {
    forall workload | workload in FinishedWorkloads(before) ::
      FindCell(cells, workload, true) == FindCell(before, workload, true)
  }

  /** A cell of a finished workload is taken over, any other is searched. */
  ghost predicate TakenFrom(done: seq<Cell>, before: seq<Cell>) {
    forall c | c in done && c.complete && c.workload in FinishedWorkloads(before) ::
      FindCell(before, c.workload, true) == Some(c)
  }

  /** A process that has loaded these cells. */
  ghost predicate ProcessRetains(p: Process, search: Search, before: seq<Cell>) {
    && p.search == search && p.resumable == before && DoneOk(p) && TakenFrom(p.done, before)
    && (p.active.Some? ==>
          && |p.done| < |search.workloads| && p.active.value.cell.workload == CurrentWorkload(p)
          && CurrentWorkload(p) !in FinishedWorkloads(before))
  }

  ghost predicate Retaining(s: State, search: Search, before: seq<Cell>) {
    && s.disk.audit.Some? && SameFinished(before, s.disk.audit.value.cells)
    && (s.process.Some? ==> ProcessRetains(s.process.value, search, before))
  }

  lemma FoundIsFinished(cells: seq<Cell>, workload: nat)
    ensures FindCell(cells, workload, true).Some? <==> workload in FinishedWorkloads(cells)
  {
    FindCellFacts(cells, workload, true);
  }

  /** Once all finished workloads have been taken over every audit write holds them. */
  lemma WrittenKeepsFinished(p: Process, before: seq<Cell>, more: seq<Cell>, n: nat)
    requires DoneOk(p) && TakenFrom(p.done, before) && n <= |p.done|
    requires Elements(p.search.workloads[..n]) == FinishedWorkloads(before)
    requires forall c | c in more :: c.workload !in FinishedWorkloads(before)
    ensures SameFinished(before, p.done + more)
  {
    forall workload | workload in FinishedWorkloads(before)
      ensures FindCell(p.done + more, workload, true) == FindCell(before, workload, true)
    {
      FindCellFacts(p.done + more, workload, true);
      var k :| 0 <= k < n && p.search.workloads[..n][k] == workload;
      assert p.done[k] in p.done + more;
    }
  }

  lemma PrefixIsFinished(workloads: seq<nat>, finished: set<nat>, n: nat)
    requires n <= |workloads| && Elements(workloads[..n]) == finished
    ensures forall i | 0 <= i < n :: workloads[i] in finished
  {
    forall i | 0 <= i < n
      ensures workloads[i] in finished
    {
      assert workloads[..n][i] == workloads[i];
    }
  }

  lemma InCellRetains(w: Library, s: State, step: CellStep, search: Search, before: seq<Cell>, n: nat)
    requires Enabled(w, s, InCell(step)) && Retaining(s, search, before)
    requires n <= |search.workloads| && Elements(search.workloads[..n]) == FinishedWorkloads(before)
    ensures Retaining(Next(w, s, InCell(step)), search, before)
  {
    var p := s.process.value;
    var t := Next(w, s, InCell(step));
    PrefixIsFinished(search.workloads, FinishedWorkloads(before), n);
    if step.Screen? || step.CloseCell? {
      var cells := t.disk.audit.value.cells;
      assert cells == p.done + [cells[|p.done|]];
      WrittenKeepsFinished(p, before, [cells[|p.done|]], n);
    }
  }

  lemma StepRetains(w: Library, s: State, step: Step, search: Search, before: seq<Cell>, n: nat)
    requires Enabled(w, s, step) && Retaining(s, search, before) && !step.Start?
    requires n <= |search.workloads| && Elements(search.workloads[..n]) == FinishedWorkloads(before)
    ensures Retaining(Next(w, s, step), search, before)
  {
    match step
    case OpenCell =>
      FoundIsFinished(before, CurrentWorkload(s.process.value));
      FindCellFacts(before, CurrentWorkload(s.process.value), true);
    case InCell(step) => InCellRetains(w, s, step, search, before, n);
    case Finish =>
      var p := s.process.value;
      WrittenKeepsFinished(p, before, [], n);
      assert p.done + [] == p.done;
    case Crash =>
  }

  /** Nothing the process does changes what the audit file holds for a finished workload. */
  ghost predicate KeepsFinished(w: Library, s: State, start: Step)
    requires s.disk.audit.Some?
  {
    forall states: seq<State>, steps: seq<Step> | RestartRun(w, states, steps, s, start) ::
      var audit := states[|states| - 1].disk.audit;
      audit.Some? && SameFinished(s.disk.audit.value.cells, audit.value.cells)
  }

  lemma RetainsFinished(w: Library, states: seq<State>, steps: seq<Step>, s: State, identity: nat, search: Search,
                        before: seq<Cell>, n: nat)
    requires RestartRun(w, states, steps, s, Start(identity, search, true)) && Loads(s, search, before)
    requires n <= |search.workloads| && Elements(search.workloads[..n]) == FinishedWorkloads(before)
    ensures Retaining(states[|states| - 1], search, before)
  {
    var kept := (s: State) => Retaining(s, search, before);
    assert kept(states[1]);
    forall k | 0 <= k < |states[1..]| - 1 && kept(states[1..][k])
      ensures kept(states[1..][k + 1])
    {
      StepRetains(w, states[k + 1], steps[k + 1], search, before, n);
    }
    Along(states[1..], kept, |states| - 2);
  }

  /** The cells that a resume takes over before it has to search. */
  lemma {:induction false} LongestPrefix(workloads: seq<nat>, finished: set<nat>) returns (n: nat)
    ensures n <= |workloads| && forall i | 0 <= i < n :: workloads[i] in finished
    ensures n < |workloads| ==> workloads[n] !in finished
  {
    if workloads != [] && workloads[0] in finished {
      var m := LongestPrefix(workloads[1..], finished);
      n := m + 1;
      forall i | 0 <= i < n
        ensures workloads[i] in finished
      {
        assert i > 0 ==> workloads[1..][i - 1] == workloads[i];
      }
    } else {
      n := 0;
    }
  }

  /** A run of the process so far: it has taken over n cells and written nothing. */
  ghost predicate TookOver(t: State, s: State, search: Search, before: seq<Cell>, n: nat) {
    && t.disk == s.disk && t.process.Some?
    && var p := t.process.value;
       p.search == search && p.resumable == before && p.active.None? && |p.done| == n && DoneOk(p)
  }

  lemma {:induction false} TakesOverAll(
    w: Library, s: State, identity: nat, search: Search, before: seq<Cell>, n: nat)
    returns (states: seq<State>, steps: seq<Step>)
    requires s.process.None? && Loads(s, search, before) && Enabled(w, s, Start(identity, search, true))
    requires n <= |search.workloads| && forall i | 0 <= i < n :: search.workloads[i] in FinishedWorkloads(before)
    ensures RestartRun(w, states, steps, s, Start(identity, search, true))
    ensures TookOver(states[|states| - 1], s, search, before, n)
  {
    var start := Start(identity, search, true);
    if n == 0 {
      states, steps := [s, Next(w, s, start)], [start];
    } else {
      states, steps := TakesOverAll(w, s, identity, search, before, n - 1);
      var t := states[|states| - 1];
      FoundIsFinished(before, search.workloads[n - 1]);
      FindCellFacts(before, search.workloads[n - 1], true);
      RestartGoesOn(w, states, steps, s, start, OpenCell);
      states, steps := states + [Next(w, t, OpenCell)], steps + [OpenCell];
    }
  }

  /** Confirmation of a cell has come this far. */
  ghost predicate Confirming(t: State, p: Process, a: Active, next: nat) {
    && t.process.Some? && t.process.value.active.Some? && next <= |a.screened| && GoodRows(a.screened)
    && var q, b := t.process.value, t.process.value.active.value;
       && q.search == p.search && q.done == p.done && |p.done| < |p.search.workloads|
       && b.cell == a.cell && b.screened == a.screened && b.stage == Settling(next)
  }

  lemma SettleOne(w: Library, t: State, p: Process, a: Active, next: nat) returns (step: Step)
    requires Confirming(t, p, a, next) && next < |a.screened|
    ensures !step.Start? && Enabled(w, t, step) && Confirming(Next(w, t, step), p, a, next + 1)
  {
    assert a.screened[next] in a.screened;
    step := InCell(Settle(a.screened[next].(binaries := {})));
  }

  lemma {:induction false} SettlesAll(
    w: Library, states: seq<State>, steps: seq<Step>, s: State, start: Step, p: Process, a: Active, next: nat)
    returns (states': seq<State>, steps': seq<Step>)
    requires RestartRun(w, states, steps, s, start) && Confirming(states[|states| - 1], p, a, next)
    ensures RestartRun(w, states', steps', s, start) && Confirming(states'[|states'| - 1], p, a, |a.screened|)
    decreases |a.screened| - next
  {
    states', steps' := states, steps;
    if next < |a.screened| {
      var t := states[|states| - 1];
      var step := SettleOne(w, t, p, a, next);
      RestartGoesOn(w, states, steps, s, start, step);
      states', steps' := SettlesAll(w, states + [Next(w, t, step)], steps + [step], s, start, p, a, next + 1);
    }
  }

  /** An opened cell can be closed when the clock stops it. */
  lemma ClosesCell(w: Library, states: seq<State>, steps: seq<Step>, s: State, start: Step)
    returns (states': seq<State>, steps': seq<Step>)
    requires RestartRun(w, states, steps, s, start)
    requires var t := states[|states| - 1];
      && t.process.Some? && t.process.value.active.Some? && t.process.value.active.value.stage == Selecting
      && |t.process.value.done| < |t.process.value.search.workloads|
      && GoodRows(t.process.value.active.value.screened)
    ensures RestartRun(w, states', steps', s, start) && states'[|states'| - 1].disk.audit.Some?
    ensures var p := states[|states| - 1].process.value;
      states'[|states'| - 1].disk.audit.value.cells == p.done + [p.active.value.cell.(complete := true)]
  {
    var t := states[|states| - 1];
    var p, a, stop := t.process.value, t.process.value.active.value, InCell(EndScreening(true));
    RestartGoesOn(w, states, steps, s, start, stop);
    states', steps' := SettlesAll(w, states + [Next(w, t, stop)], steps + [stop], s, start, p, a, 0);
    var t1 := states'[|states'| - 1];
    RestartGoesOn(w, states', steps', s, start, InCell(SaveResult));
    var t2 := Next(w, t1, InCell(SaveResult));
    states', steps' := states' + [t2], steps' + [InCell(SaveResult)];
    RestartGoesOn(w, states', steps', s, start, InCell(CloseCell));
    states', steps' := states' + [Next(w, t2, InCell(CloseCell))], steps' + [InCell(CloseCell)];
  }

  /** At the end of the list the audit is written with the cells taken over. */
  lemma DropsAtEnd(
    w: Library, states: seq<State>, steps: seq<Step>, s: State, start: Step, search: Search, before: seq<Cell>,
    workload: nat)
    returns (states': seq<State>, steps': seq<Step>)
    requires RestartRun(w, states, steps, s, start)
    requires TookOver(states[|states| - 1], s, search, before, |search.workloads|) && workload !in search.workloads
    ensures RestartRun(w, states', steps', s, start) && states'[|states'| - 1].disk.audit.Some?
    ensures workload !in FinishedWorkloads(states'[|states'| - 1].disk.audit.value.cells)
  {
    var t := states[|states| - 1];
    RestartGoesOn(w, states, steps, s, start, Finish);
    states', steps' := states + [Next(w, t, Finish)], steps + [Finish];
  }

  /** In front of a workload that is not finished, with the cells taken over and the next one. */
  lemma DropsAtNext(
    w: Library, states: seq<State>, steps: seq<Step>, s: State, start: Step, search: Search, before: seq<Cell>,
    n: nat, workload: nat)
    returns (states': seq<State>, steps': seq<Step>)
    requires ValidLibrary(w) && Inv(w, s) && RestartRun(w, states, steps, s, start) && n < |search.workloads|
    requires TookOver(states[|states| - 1], s, search, before, n)
    requires search.workloads[n] !in FinishedWorkloads(before) && workload !in search.workloads[..n + 1]
    ensures RestartRun(w, states', steps', s, start) && states'[|states'| - 1].disk.audit.Some?
    ensures workload !in FinishedWorkloads(states'[|states'| - 1].disk.audit.value.cells)
  {
    var t := states[|states| - 1];
    FoundIsFinished(before, search.workloads[n]);
    RestartGoesOn(w, states, steps, s, start, OpenCell);
    states', steps' := states + [Next(w, t, OpenCell)], steps + [OpenCell];
    RunKeepsInv(w, states', steps', |states'| - 1);
    NotAmong(t.process.value.done, search.workloads, n, workload);
    states', steps' := ClosesCell(w, states', steps', s, start);
  }

  lemma NotAmong(done: seq<Cell>, workloads: seq<nat>, n: nat, workload: nat)
    requires |done| == n < |workloads| && forall i | 0 <= i < n :: done[i].workload == workloads[i]
    requires workload !in workloads[..n + 1]
    ensures workload !in FinishedWorkloads(done) && workload != workloads[n]
  {
    assert workloads[n] == workloads[..n + 1][n];
    forall i | 0 <= i < n
      ensures done[i].workload != workload
    {
      assert workloads[..n + 1][i] == workloads[i];
    }
  }

  /** A finished workload that is not listed first is dropped with the next audit write. */
  lemma DropsFinished(w: Library, s: State, identity: nat, search: Search, before: seq<Cell>)
    returns (states: seq<State>, steps: seq<Step>, workload: nat)
    requires ValidLibrary(w) && Inv(w, s) && s.process.None? && Loads(s, search, before)
    requires Enabled(w, s, Start(identity, search, true))
    requires !FinishedFirst(search.workloads, FinishedWorkloads(before))
    ensures RestartRun(w, states, steps, s, Start(identity, search, true))
    ensures states[|states| - 1].disk.audit.Some? && workload in FinishedWorkloads(before)
    ensures workload !in FinishedWorkloads(states[|states| - 1].disk.audit.value.cells)
  {
    var start, finished := Start(identity, search, true), FinishedWorkloads(before);
    var n := LongestPrefix(search.workloads, finished);
    assert Elements(search.workloads[..n]) != finished;
    workload :| workload in finished && workload !in search.workloads[..n];
    states, steps := TakesOverAll(w, s, identity, search, before, n);
    if n == |search.workloads| {
      states, steps := DropsAtEnd(w, states, steps, s, start, search, before, workload);
    } else {
      states, steps := DropsAtNext(w, states, steps, s, start, search, before, n, workload);
    }
  }

  /** A resume under the recorded protocol with any workload file, shorter, longer, reordered or with
      repetitions: whatever the process does, the audit file keeps what it holds for every finished
      workload if and only if the file lists exactly these workloads first. */
  lemma ResumeKeepsFinishedIff(w: Library, s: State, identity: nat, search: Search, before: seq<Cell>)
    requires ValidLibrary(w) && Inv(w, s) && s.process.None? && Loads(s, search, before)
    requires Enabled(w, s, Start(identity, search, true))
    ensures KeepsFinished(w, s, Start(identity, search, true))
       <==> FinishedFirst(search.workloads, FinishedWorkloads(before))
  {
    var start := Start(identity, search, true);
    if FinishedFirst(search.workloads, FinishedWorkloads(before)) {
      var n :| 0 <= n <= |search.workloads| && Elements(search.workloads[..n]) == FinishedWorkloads(before);
      forall states: seq<State>, steps: seq<Step> | RestartRun(w, states, steps, s, start)
        ensures Retaining(states[|states| - 1], search, before)
      {
        RetainsFinished(w, states, steps, s, identity, search, before, n);
      }
    } else {
      var states, steps, workload := DropsFinished(w, s, identity, search, before);
      FoundIsFinished(before, workload);
      FoundIsFinished(states[|states| - 1].disk.audit.value.cells, workload);
      assert RestartRun(w, states, steps, s, start);
    }
  }
}
