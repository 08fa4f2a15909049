/** Whose measurements the journal holds. A resume compares the binaries of the audit file only; here is when
    that tells where every journaled row comes from. */
module RowProvenance {
  import opened Sorting
  import opened Options
  import opened StratifiedOrder
  import opened ResumePrefix
  import opened Screening
  import opened SearchRuns
  import opened JournalGrowth

  /** All samples were taken with these binaries. */
  predicate MeasuredWith(row: Row, identity: nat) {
    row.binaries <= {identity}
  }

  predicate RowsWith(rows: seq<Row>, identity: nat) {
    forall row | row in rows :: MeasuredWith(row, identity)
  }

  predicate JournalWith(m: Journal, identity: nat) {
    forall n: int | n in m :: MeasuredWith(m[n], identity)
  }

  predicate FileWith(journal: Option<Journal>, identity: nat) {
    journal.Some? ==> JournalWith(journal.value, identity)
  }

  /** Every journaled row was measured with the binaries the audit file names, so a resume that passes the
      comparison takes over rows of its own binaries only. */
  predicate Unmixed(s: State) {
    s.disk.audit.Some? ==> FileWith(s.disk.journal, s.disk.audit.value.identity)
  }

  /** A restart after which the files cannot mix: the process resumes from both files, or has the binaries
      of the rows on disk, or can measure nothing before it has replaced the journal. */
  ghost predicate UnmixedRestart(w: Library, s: State, identity: nat, search: Search, resume: bool) {
    || (resume && s.disk.audit.Some? && s.disk.journal.Some?)
    || (search.workloads != [] && FirstIds(w, search) == {})
    || (if s.disk.audit.Some? then s.disk.audit.value.identity == identity else FileWith(s.disk.journal, identity))
  }

  ghost predicate GuardedUnmixed(w: Library, s: State, step: Step) {
    step.Start? ==> UnmixedRestart(w, s, step.identity, step.search, step.resume)
  }

  // --- the process holds rows of its own binaries

  /** The files are this process's. */
  predicate OwnFiles(s: State, p: Process) {
    if s.disk.audit.Some? then s.disk.audit.value.identity == p.identity else FileWith(s.disk.journal, p.identity)
  }

  /** The files are this process's, or it will replace the journal before it writes an audit. */
  ghost predicate FilesOfProcess(w: Library, s: State, p: Process) {
    || (p.search.workloads != [] && FirstIds(w, p.search) == {} && Unaudited(w, p, s.disk.journal))
    || OwnFiles(s, p)
  }

  ghost predicate OwnRows(p: Process) {
    && JournalWith(p.retained, p.identity) && RowsWith(p.result, p.identity)
    && (p.active.Some? ==> RowsWith(p.active.value.screened, p.identity))
  }

  ghost predicate Provenance(w: Library, s: State) {
    && Unmixed(s)
    && (s.process.Some? ==> OwnRows(s.process.value) && FilesOfProcess(w, s, s.process.value))
  }

  lemma {:induction false} SaveWith(m: Journal, rows: seq<Row>, identity: nat)
    requires JournalWith(m, identity) && RowsWith(rows, identity)
    ensures JournalWith(Save(m, rows), identity)
    decreases |rows|
  {
    if rows != [] {
      SaveWith(m[rows[0].name := rows[0]], rows[1..], identity);
    }
  }

  lemma {:induction false} RowsOfWith(candidates: seq<Candidate>, retained: Journal, identity: nat)
    requires JournalWith(retained, identity)
    ensures RowsWith(RowsOf(candidates, retained), identity)
  {
    if candidates != [] {
      RowsOfWith(candidates[1..], retained, identity);
      var c, rest := candidates[0], RowsOf(candidates[1..], retained);
      var head := if c.Candidate? && c.id.Some? && c.id.value in retained then [retained[c.id.value]] else [];
      if c.Candidate? && c.id.Some? && c.id.value in retained {
        var n := c.id.value;
        assert n in retained && MeasuredWith(retained[n], identity);
      }
      assert RowsOf(candidates, retained) == head + rest;
    }
  }

  lemma ResumedWith(plan: Plan, p: Process)
    requires |p.done| < |p.search.workloads| && ResumesFast(plan, p) && JournalWith(p.retained, p.identity)
    ensures RowsWith(Resumed(plan, p).screened, p.identity)
  {
    var cell := FindCell(p.resumable, CurrentWorkload(p), false).value;
    var prefix := RecoveredPrefix(cell, p.retained).value;
    forall i | 0 <= i < |prefix|
      ensures MeasuredWith(prefix[i].row, p.identity)
    {
      assert Recovers(cell, p.retained, i, prefix[i]);
    }
  }

  lemma OpenKeepsProvenance(w: Library, s: State)
    requires Enabled(w, s, OpenCell) && Provenance(w, s)
    ensures Provenance(w, Next(w, s, OpenCell))
  {
    var p := s.process.value;
    var plan, finished := CurrentPlan(w, p), FindCell(p.resumable, CurrentWorkload(p), true);
    if finished.Some? {
      RowsOfWith(finished.value.candidates, p.retained, p.identity);
    } else if ResumesFast(plan, p) {
      ResumedWith(plan, p);
    }
  }

  lemma WriteKeepsProvenance(w: Library, s: State, p: Process, rows: seq<Row>)
    requires OwnFiles(s, p) && OwnRows(p) && RowsWith(rows, p.identity)
    ensures Provenance(w, WriteJournal(s, p, rows))
  {
    SaveWith(p.retained, rows, p.identity);
  }

  /** A process that can measure nothing in its first cell replaces the journal and then the audit. */
  lemma EmptyFirstKeepsProvenance(w: Library, s: State, step: CellStep)
    requires Enabled(w, s, InCell(step)) && Provenance(w, s) && !OwnFiles(s, s.process.value)
    ensures Provenance(w, Next(w, s, InCell(step)))
  {
    var p := s.process.value;
    assert p.retained == map[];
    assert step.EndScreening? || step.SaveResult? || step.CloseCell?;
  }

  lemma SettleKeepsProvenance(w: Library, s: State, row: Row)
    requires Enabled(w, s, InCell(Settle(row))) && Provenance(w, s) && OwnFiles(s, s.process.value)
    ensures Provenance(w, Next(w, s, InCell(Settle(row))))
  {
    var p := s.process.value;
    var a := p.active.value;
    var result, next := p.result + [row], a.stage.next + 1;
    WriteKeepsProvenance(w, s, p.(result := result, active := Some(a.(stage := Settling(next)))),
                         result + a.screened[next..]);
  }

  lemma InCellKeepsProvenance(w: Library, s: State, step: CellStep)
    requires Enabled(w, s, InCell(step)) && Provenance(w, s) && OwnFiles(s, s.process.value)
    ensures Provenance(w, Next(w, s, InCell(step)))
  {
    var p := s.process.value;
    var a := p.active.value;
    match step
    case Trial(row) => WriteKeepsProvenance(w, s, p, [row]);
    case Confirm(row) => WriteKeepsProvenance(w, s, p, [row]);
    case SaveScreens => WriteKeepsProvenance(w, s, p.(active := Some(a.(stage := Selecting))), p.result + a.screened);
    case Settle(row) => SettleKeepsProvenance(w, s, row);
    case SaveResult => WriteKeepsProvenance(w, s, p.(active := Some(a.(stage := Settled))), p.result);
    case _ =>
  }

  lemma StepKeepsProvenance(w: Library, s: State, step: Step)
    requires Enabled(w, s, step) && Provenance(w, s) && GuardedUnmixed(w, s, step)
    ensures Provenance(w, Next(w, s, step))
  {
    match step
    case OpenCell => OpenKeepsProvenance(w, s);
    case InCell(step) =>
      if OwnFiles(s, s.process.value) {
        InCellKeepsProvenance(w, s, step);
      } else {
        EmptyFirstKeepsProvenance(w, s, step);
      }
    case _ =>
  }

  /** Along any run from a stop with unmixed files whose restarts satisfy UnmixedRestart, every state has
      unmixed files, and whatever a process holds it measured, or a process with its binaries did. */
  lemma FilesStayUnmixed(w: Library, states: seq<State>, steps: seq<Step>, i: nat)
    requires IsRun(w, states, steps) && i < |states| && states[0].process.None? && Unmixed(states[0])
    requires forall k | 0 <= k < |steps| :: GuardedUnmixed(w, states[k], steps[k])
    ensures Unmixed(states[i]) && (states[i].process.Some? ==> OwnRows(states[i].process.value))
  {
    var kept := (s: State) => Provenance(w, s);
    forall k | 0 <= k < |steps| && kept(states[k])
      ensures kept(states[k + 1])
    {
      StepKeepsProvenance(w, states[k], steps[k]);
    }
    Along(states, kept, i);
  }

  // --- one build

  ghost predicate SameBinaries(steps: seq<Step>, identity: nat) {
    forall k | 0 <= k < |steps| && steps[k].Start? :: steps[k].identity == identity
  }

  ghost predicate OfBuild(w: Library, s: State, identity: nat) {
    && Provenance(w, s) && FileWith(s.disk.journal, identity)
    && (s.disk.audit.Some? ==> s.disk.audit.value.identity == identity)
    && (s.process.Some? ==> s.process.value.identity == identity)
  }

  lemma StepKeepsBuild(w: Library, s: State, step: Step, identity: nat)
    requires Enabled(w, s, step) && OfBuild(w, s, identity) && (step.Start? ==> step.identity == identity)
    ensures OfBuild(w, Next(w, s, step), identity)
  {
    StepKeepsProvenance(w, s, step);
  }

  /** In every run from an empty directory with one build, whatever its restarts resume or not and under
      whatever protocols, all rows on disk are of that build. */
  lemma OneBuildNeverMixes(w: Library, states: seq<State>, steps: seq<Step>, identity: nat, i: nat)
    requires IsRun(w, states, steps) && states[0] == INITIAL && SameBinaries(steps, identity) && i < |states|
    ensures Unmixed(states[i]) && FileWith(states[i].disk.journal, identity)
  {
    var kept := (s: State) => OfBuild(w, s, identity);
    assert kept(INITIAL);
    forall k | 0 <= k < |steps| && kept(states[k])
      ensures kept(states[k + 1])
    {
      StepKeepsBuild(w, states[k], steps[k], identity);
    }
    Along(states, kept, i);
  }

  // --- the exact condition at one restart

  /** Nothing the process does leaves files of two builds side by side. */
  ghost predicate NeverMixes(w: Library, s: State, start: Step) {
    forall states: seq<State>, steps: seq<Step> | RestartRun(w, states, steps, s, start) ::
      Unmixed(states[|states| - 1])
  }

  /** A new build over an old audit file: its first journal write leaves a row under the name of the old build. */
  lemma NewRowsUnderOldAudit(w: Library, s: State, identity: nat, search: Search, resume: bool)
    returns (states: seq<State>, steps: seq<Step>)
    requires s.process.None? && search.workloads != [] && s.disk.audit.Some?
    requires !UnmixedRestart(w, s, identity, search, resume)
    ensures RestartRun(w, states, steps, s, Start(identity, search, resume)) && NoClock(steps)
    ensures !Unmixed(states[|states| - 1])
  {
    states, steps := JournalsFirst(w, s, identity, search, resume);
    var row := FirstRow(FirstPlan(w, search), true, {identity});
    assert identity in row.binaries && row.name in states[4].disk.journal.value;
  }

  /** Without an audit file: rows of an old build come under the name of the new one with the first audit
      write, if the first measurement fails. */
  lemma OldRowsUnderNewAudit(w: Library, s: State, identity: nat, search: Search, resume: bool)
    returns (states: seq<State>, steps: seq<Step>)
    requires s.process.None? && search.workloads != [] && s.disk.audit.None?
    requires !UnmixedRestart(w, s, identity, search, resume)
    ensures RestartRun(w, states, steps, s, Start(identity, search, resume)) && NoClock(steps)
    ensures !Unmixed(states[|states| - 1])
  {
    states, steps := AuditsFirst(w, s, identity, search, resume);
  }

  /** The exact condition: over unmixed files a restart can never mix them if and only if it resumes from
      both, has the binaries of the rows on disk, or can measure nothing in its first cell. */
  lemma NeverMixesIff(w: Library, s: State, identity: nat, search: Search, resume: bool)
    requires s.process.None? && search.workloads != [] && Unmixed(s)
    requires Enabled(w, s, Start(identity, search, resume))
    ensures NeverMixes(w, s, Start(identity, search, resume)) <==> UnmixedRestart(w, s, identity, search, resume)
  {
    var start := Start(identity, search, resume);
    if UnmixedRestart(w, s, identity, search, resume) {
      forall states: seq<State>, steps: seq<Step> | RestartRun(w, states, steps, s, start)
        ensures Unmixed(states[|states| - 1])
      {
        FilesStayUnmixed(w, states, steps, |states| - 1);
      }
    } else if s.disk.audit.Some? {
      var states, steps := NewRowsUnderOldAudit(w, s, identity, search, resume);
      assert RestartRun(w, states, steps, s, start) && !Unmixed(states[|states| - 1]);
    } else {
      var states, steps := OldRowsUnderNewAudit(w, s, identity, search, resume);
      assert RestartRun(w, states, steps, s, start) && !Unmixed(states[|states| - 1]);
    }
  }
}
