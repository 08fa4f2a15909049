/** What crashes and restarts can do to the journal of a search: which restarts keep every journaled name, and
    what the files hold before and after the first audit write. */
module JournalGrowth {
  import Sets
  import opened Sorting
  import opened Options
  import opened StratifiedOrder
  import opened ResumePrefix
  import opened Screening
  import opened SearchRuns

  // --- names that are kept from a restart on

  /** The running process holds every row of the journal file. */
  ghost predicate Covered(s: State) {
    s.process.Some? ==> Names(s.disk.journal) <= s.process.value.retained.Keys
  }

  lemma JournalGrows(s: State, p: Process, rows: seq<Row>)
    requires s.process.Some? && Covered(s) && p.retained == s.process.value.retained
    ensures Names(s.disk.journal) <= Names(WriteJournal(s, p, rows).disk.journal)
  {
    SaveFacts(p.retained, rows);
    forall n: int | n in Names(s.disk.journal)
      ensures n in Save(p.retained, rows).Keys
    {
      assert n in p.retained;
    }
    Sets.IntSubset(Names(s.disk.journal), Save(p.retained, rows).Keys);
  }

  /** A restart from which the journal cannot shrink: no row is journaled, or the process was told to resume
      and finds an audit file. */
  predicate SafeRestart(s: State, resume: bool) {
    Names(s.disk.journal) == {} || (resume && s.disk.audit.Some?)
  }

  predicate Guarded(s: State, step: Step) {
    step.Start? ==> SafeRestart(s, step.resume)
  }

  lemma StepGrowsJournal(w: Library, s: State, step: Step)
    requires Enabled(w, s, step) && Covered(s) && Guarded(s, step)
    ensures Names(s.disk.journal) <= Names(Next(w, s, step).disk.journal) && Covered(Next(w, s, step))
  {
    if step.InCell? {
      var p := s.process.value;
      var a := p.active.value;
      match step.step
      case Trial(row) => JournalGrows(s, p, [row]);
      case Confirm(row) => JournalGrows(s, p, [row]);
      case SaveScreens =>
        JournalGrows(s, p.(active := Some(a.(stage := Selecting))), p.result + a.screened);
      case Settle(row) =>
        var result, next := p.result + [row], a.stage.next + 1;
        JournalGrows(s, p.(result := result, active := Some(a.(stage := Settling(next)))), result + a.screened[next..]);
      case SaveResult => JournalGrows(s, p.(active := Some(a.(stage := Settled))), p.result);
      case _ =>
    }
  }

  ghost predicate Grown(s: State, t: State) {
    Covered(t) && Names(s.disk.journal) <= Names(t.disk.journal)
  }

  lemma StaysCovered(w: Library, states: seq<State>, steps: seq<Step>, i: nat)
    requires IsRun(w, states, steps) && i < |states| && states[0].process.None?
    requires forall k | 0 <= k < |steps| :: Guarded(states[k], steps[k])
    ensures Covered(states[i])
  {
    var kept := (s: State) => Covered(s);
    forall k | 0 <= k < |steps| && kept(states[k])
      ensures kept(states[k + 1])
    {
      StepGrowsJournal(w, states[k], steps[k]);
    }
    Along(states, kept, i);
  }

  /** Along a run from a stop whose restarts are all safe the names in the journal never shrink. */
  lemma SafeRestartsKeepNames(w: Library, states: seq<State>, steps: seq<Step>, i: nat, j: nat)
    requires IsRun(w, states, steps) && i <= j < |states| && states[0].process.None?
    requires forall k | 0 <= k < |steps| :: Guarded(states[k], steps[k])
    ensures Names(states[i].disk.journal) <= Names(states[j].disk.journal)
  {
    StaysCovered(w, states, steps, i);
    var kept := (s: State) => Grown(states[i], s);
    forall k | 0 <= k < |steps| - i && kept(states[i..][k])
      ensures kept(states[i..][k + 1])
    {
      StepGrowsJournal(w, states[i + k], steps[i + k]);
    }
    Along(states[i..], kept, j - i);
  }

  /** A restart and what the process does until it ends or another restart follows. */
  ghost predicate RestartRun(w: Library, states: seq<State>, steps: seq<Step>, s: State, start: Step) {
    && IsRun(w, states, steps) && states[0] == s && steps != [] && steps[0] == start
    && forall k | 0 < k < |steps| :: !steps[k].Start?
  }

  /** Nothing the process can do loses a journaled name. */
  ghost predicate KeepsNames(w: Library, s: State, start: Step) {
    forall states: seq<State>, steps: seq<Step> | RestartRun(w, states, steps, s, start) ::
      Names(s.disk.journal) <= Names(states[|states| - 1].disk.journal)
  }

  /** No cell is stopped by the clock. */
  ghost predicate NoClock(steps: seq<Step>) {
    forall k | 0 <= k < |steps| :: steps[k] != InCell(EndScreening(true))
  }

  /** A process that loads nothing opens its first cell afresh. */
  lemma OpensAfresh(w: Library, s: State, identity: nat, search: Search, resume: bool) returns (s1: State, s2: State)
    requires s.process.None? && search.workloads != [] && !(resume && s.disk.audit.Some? && s.disk.journal.Some?)
    ensures Enabled(w, s, Start(identity, search, resume)) && s1 == Next(w, s, Start(identity, search, resume))
    ensures Enabled(w, s1, OpenCell) && s2 == Next(w, s1, OpenCell)
    ensures s2.disk == s.disk && s2.process.Some?
    ensures var p, plan := s2.process.value, FirstPlan(w, search);
      && p.identity == identity && p.search == search && p.retained == map[] && p.done == [] && p.result == []
      && p.active == Some(Active(FreshCell(search.workloads[0], plan), [], plan.order, Selecting, []))
  {
    s1 := Next(w, s, Start(identity, search, resume));
    assert s1.process.value.resumable == [] && s1.process.value.retained == map[];
    s2 := Next(w, s1, OpenCell);
  }

  /** A restart that is not safe can lose every name: the process opens its first cell afresh, has no time
      left for it, and saves its empty result. */
  lemma UnsafeRestartLoses(w: Library, s: State, identity: nat, search: Search, resume: bool)
    returns (states: seq<State>, steps: seq<Step>)
    requires s.process.None? && search.workloads != [] && !SafeRestart(s, resume)
    ensures RestartRun(w, states, steps, s, Start(identity, search, resume))
    ensures Names(states[|states| - 1].disk.journal) == {}
  {
    var s1, s2 := OpensAfresh(w, s, identity, search, resume);
    var s3 := Next(w, s2, InCell(EndScreening(true)));
    var s4 := Next(w, s3, InCell(SaveResult));
    states := [s, s1, s2, s3, s4];
    steps := [Start(identity, search, resume), OpenCell, InCell(EndScreening(true)), InCell(SaveResult)];
    assert IsRun(w, states, steps);
  }

  /** The plan of the first workload. */
  function FirstPlan(w: Library, search: Search): Plan
    requires search.workloads != []
  {
    w(search.settings, search.workloads[0])
  }

  /** The point a cell opened afresh measures first. */
  function FirstPoint(plan: Plan): Point
    requires Budget(plan) > 0
  {
    if plan.seeds != [] then plan.seeds[0] else plan.order[0]
  }

  /** The identities that a process which loads nothing can journal before its first audit write. */
  ghost function FirstIds(w: Library, search: Search): set<int> {
    if search.workloads == [] || Budget(FirstPlan(w, search)) == 0 then {} else {FirstPoint(FirstPlan(w, search)).id}
  }

  lemma OneRowWrite(m: Journal, row: Row)
    ensures Save(m, [row]) == m[row.name := row]
  {
    assert Save(m, [row]) == Save(m[row.name := row], []);
  }

  /** The process has chosen its first candidate and has touched no file. */
  ghost predicate AtFirst(w: Library, t: State, disk: Disk, identity: nat, search: Search) {
    && t.disk == disk && t.process.Some? && FirstIds(w, search) != {}
    && var p := t.process.value;
       && p.identity == identity && p.search == search && p.retained == map[] && p.done == [] && p.result == []
       && p.active.Some? && p.active.value.screened == []
       && p.active.value.stage == Measuring(FirstPoint(FirstPlan(w, search)))
  }

  lemma MeasuresFirst(w: Library, s: State, identity: nat, search: Search, resume: bool)
    returns (states: seq<State>, steps: seq<Step>)
    requires s.process.None? && FirstIds(w, search) != {}
    requires !(resume && s.disk.audit.Some? && s.disk.journal.Some?)
    ensures RestartRun(w, states, steps, s, Start(identity, search, resume)) && NoClock(steps) && |states| == 4
    ensures AtFirst(w, states[3], s.disk, identity, search)
  {
    var s1, s2 := OpensAfresh(w, s, identity, search, resume);
    states := [s, s1, s2, Next(w, s2, InCell(Choose(0)))];
    steps := [Start(identity, search, resume), OpenCell, InCell(Choose(0))];
  }

  lemma RestartGoesOn(w: Library, states: seq<State>, steps: seq<Step>, s: State, start: Step, step: Step)
    requires RestartRun(w, states, steps, s, start) && Enabled(w, states[|states| - 1], step) && !step.Start?
    ensures RestartRun(w, states + [Next(w, states[|states| - 1], step)], steps + [step], s, start)
    ensures NoClock(steps) && step != InCell(EndScreening(true)) ==> NoClock(steps + [step])
  {
  }

  /** A row of the first candidate, as its measurement may leave it. */
  function FirstRow(plan: Plan, correct: bool, binaries: set<nat>): Row
    requires Budget(plan) > 0
  {
    Row(FirstPoint(plan).id, Some(FirstPoint(plan)), correct, binaries)
  }

  /** The first measurement is journaled before any audit write. */
  lemma JournalsFirst(w: Library, s: State, identity: nat, search: Search, resume: bool)
    returns (states: seq<State>, steps: seq<Step>)
    requires s.process.None? && FirstIds(w, search) != {}
    requires !(resume && s.disk.audit.Some? && s.disk.journal.Some?)
    ensures RestartRun(w, states, steps, s, Start(identity, search, resume)) && NoClock(steps) && |states| == 5
    ensures var row, t := FirstRow(FirstPlan(w, search), true, {identity}), states[4];
      t.disk == Disk(s.disk.audit, Some(map[row.name := row])) && t.process.Some?
  {
    var row := FirstRow(FirstPlan(w, search), true, {identity});
    states, steps := MeasuresFirst(w, s, identity, search, resume);
    RestartGoesOn(w, states, steps, s, Start(identity, search, resume), InCell(Trial(row)));
    OneRowWrite(map[], row);
    states, steps := states + [Next(w, states[3], InCell(Trial(row)))], steps + [InCell(Trial(row))];
  }

  /** A first measurement that fails is in the audit file before it is journaled. */
  lemma AuditsFirst(w: Library, s: State, identity: nat, search: Search, resume: bool)
    returns (states: seq<State>, steps: seq<Step>)
    requires s.process.None? && FirstIds(w, search) != {}
    requires !(resume && s.disk.audit.Some? && s.disk.journal.Some?)
    ensures RestartRun(w, states, steps, s, Start(identity, search, resume)) && NoClock(steps) && |states| == 5
    ensures var t := states[4];
      && t.disk.journal == s.disk.journal && t.disk.audit.Some? && t.disk.audit.value.identity == identity
      && t.process.Some? && t.process.value.search == search && t.process.value.done == []
      && t.process.value.retained == map[] && t.process.value.result == []
      && t.process.value.active.Some? && t.process.value.active.value.stage == Saving
      && t.process.value.active.value.screened == [FirstRow(FirstPlan(w, search), false, {})]
  {
    var row := FirstRow(FirstPlan(w, search), false, {});
    states, steps := MeasuresFirst(w, s, identity, search, resume);
    RestartGoesOn(w, states, steps, s, Start(identity, search, resume), InCell(Screen(row)));
    states, steps := states + [Next(w, states[3], InCell(Screen(row)))], steps + [InCell(Screen(row))];
  }

  /** Nor does it take a clock: the first measurement of such a process leaves its own row only. */
  lemma UnsafeRestartReplaces(w: Library, s: State, identity: nat, search: Search, resume: bool)
    returns (states: seq<State>, steps: seq<Step>)
    requires s.process.None? && FirstIds(w, search) != {} && !SafeRestart(s, resume)
    ensures RestartRun(w, states, steps, s, Start(identity, search, resume)) && NoClock(steps)
    ensures Names(states[|states| - 1].disk.journal) == FirstIds(w, search)
  {
    states, steps := JournalsFirst(w, s, identity, search, resume);
  }

  /** The exact condition, at the restart: whatever the process does, every journaled name stays, if and
      only if nothing is journaled yet or the process resumes from an audit file. */
  lemma RestartKeepsNamesIff(w: Library, s: State, identity: nat, search: Search, resume: bool)
    requires s.process.None? && search.workloads != []
    ensures KeepsNames(w, s, Start(identity, search, resume)) <==> SafeRestart(s, resume)
  {
    var start := Start(identity, search, resume);
    if SafeRestart(s, resume) {
      forall states: seq<State>, steps: seq<Step> | RestartRun(w, states, steps, s, start)
        ensures Names(s.disk.journal) <= Names(states[|states| - 1].disk.journal)
      {
        SafeRestartsKeepNames(w, states, steps, 0, |states| - 1);
      }
    } else {
      var states, steps := UnsafeRestartLoses(w, s, identity, search, resume);
      assert RestartRun(w, states, steps, s, start);
    }
  }

  // --- names that are kept once the audit file exists

  /** The first cell before its first audit write. */
  ghost predicate InFirstTurn(plan: Plan, a: Active, retained: Journal, journal: Option<Journal>) {
    && a.screened == []
    && match a.stage
       case Selecting => a.remaining == plan.order
       case Measuring(point) => Budget(plan) > 0 && point == FirstPoint(plan)
       case Saving => false
       case Settling(next) => next == 0
       case Settled => journal == Some(retained)
  }

  /** A process that has written no audit has loaded nothing and is in its first turn. */
  ghost predicate Unaudited(w: Library, p: Process, journal: Option<Journal>) {
    && !p.loaded && p.resumable == [] && p.done == [] && p.result == []
    && p.retained.Keys <= FirstIds(w, p.search)
    && (p.active.Some? ==>
          p.search.workloads != [] && InFirstTurn(FirstPlan(w, p.search), p.active.value, p.retained, journal))
  }

  ghost predicate BeforeAudit(w: Library, s: State) {
    s.disk.audit.None? && s.process.Some? ==> Unaudited(w, s.process.value, s.disk.journal)
  }

  lemma FirstTurnInCell(w: Library, s: State, step: CellStep)
    requires Enabled(w, s, InCell(step)) && BeforeAudit(w, s) && s.disk.audit.None?
    ensures BeforeAudit(w, Next(w, s, InCell(step)))
  {
    var p := s.process.value;
    match step
    case Trial(row) => OneRowWrite(p.retained, row);
    case _ =>
  }

  lemma StepKeepsBeforeAudit(w: Library, s: State, step: Step)
    requires Enabled(w, s, step) && BeforeAudit(w, s)
    ensures BeforeAudit(w, Next(w, s, step))
  {
    if s.disk.audit.None? {
      match step
      case InCell(step) => FirstTurnInCell(w, s, step);
      case _ =>
    }
  }

  /** No name, or the first candidate of one of these searches. */
  ghost predicate HoldsFirst(w: Library, names: set<int>, searches: iset<Search>) {
    names == {} || exists search :: search in searches && names <= FirstIds(w, search)
  }

  ghost predicate FirstNames(w: Library, s: State, searches: iset<Search>) {
    && BeforeAudit(w, s) && (s.process.Some? ==> s.process.value.search in searches)
    && (s.disk.audit.None? ==> HoldsFirst(w, Names(s.disk.journal), searches))
  }

  /** Before the audit file exists a journal write leaves what the process has in memory. */
  lemma UnauditedWrite(w: Library, s: State, step: Step)
    requires Enabled(w, s, step) && BeforeAudit(w, s) && Next(w, s, step).disk.audit.None?
    ensures var t := Next(w, s, step);
      || t.disk.journal == s.disk.journal
      || (s.process.Some? && Names(t.disk.journal) <= FirstIds(w, s.process.value.search))
  {
    if step.InCell? {
      var p := s.process.value;
      match step.step
      case Trial(row) => OneRowWrite(p.retained, row);
      case _ =>
    }
  }

  /** Every process runs one of these searches. */
  ghost predicate RunsOf(steps: seq<Step>, searches: iset<Search>) {
    forall k | 0 <= k < |steps| && steps[k].Start? :: steps[k].search in searches
  }

  lemma StepKeepsFirstNames(w: Library, s: State, step: Step, searches: iset<Search>)
    requires Enabled(w, s, step) && FirstNames(w, s, searches) && (step.Start? ==> step.search in searches)
    ensures FirstNames(w, Next(w, s, step), searches)
  {
    StepKeepsBeforeAudit(w, s, step);
    if Next(w, s, step).disk.audit.None? {
      UnauditedWrite(w, s, step);
    }
  }

  /** In every run from an empty directory, whatever its restarts, a journal without an audit file holds at
      most one name, and that is the first candidate of one of the searches of the run. */
  lemma AuditlessJournalHoldsOne(
    w: Library, states: seq<State>, steps: seq<Step>, searches: iset<Search>, i: nat)
    requires IsRun(w, states, steps) && states[0] == INITIAL && RunsOf(steps, searches)
    requires i < |states| && states[i].disk.audit.None?
    ensures HoldsFirst(w, Names(states[i].disk.journal), searches) && |Names(states[i].disk.journal)| <= 1
  {
    var kept := (s: State) => FirstNames(w, s, searches);
    forall k | 0 <= k < |steps| && kept(states[k])
      ensures kept(states[k + 1])
    {
      StepKeepsFirstNames(w, states[k], steps[k], searches);
    }
    Along(states, kept, i);
    var names := Names(states[i].disk.journal);
    if names != {} {
      var search :| search in searches && names <= FirstIds(w, search);
      Sets.SubsetSize(names, FirstIds(w, search));
    }
  }

  /** A restart after which no name is lost once there is an audit file: over an audit file the process
      resumes or finds nothing journaled, and without one it finds at most its own first candidate, or
      cannot measure anything before its first audit write. */
  ghost predicate SafeOnceAudited(w: Library, s: State, search: Search, resume: bool) {
    if s.disk.audit.Some? then SafeRestart(s, resume)
    else FirstIds(w, search) == {} || Names(s.disk.journal) <= FirstIds(w, search)
  }

  ghost predicate GuardedOnceAudited(w: Library, s: State, step: Step) {
    step.Start? ==> SafeOnceAudited(w, s, step.search, step.resume)
  }

  /** The first screened row is in the audit file, and the journal holds no other name. */
  ghost predicate SavingFirst(s: State) {
    && s.process.Some? && s.process.value.active.Some? && s.process.value.active.value.stage.Saving?
    && var rows := s.process.value.result + s.process.value.active.value.screened;
       forall n: int | n in Names(s.disk.journal) :: exists row :: row in rows && row.name == n
  }

  /** With an audit file the process holds every journaled row or is about to write it; without one the
      journal holds nothing that the process would not measure first. */
  ghost predicate JournalInOrder(w: Library, s: State) {
    && BeforeAudit(w, s)
    && (if s.disk.audit.Some? then Covered(s) || SavingFirst(s)
        else s.process.Some? ==>
          FirstIds(w, s.process.value.search) == {} || Names(s.disk.journal) <= FirstIds(w, s.process.value.search))
  }

  /** From a state with an audit file to a later one: the audit file stays and no journaled name is lost. */
  ghost predicate NamesKept(s: State, t: State) {
    s.disk.audit.Some? ==> t.disk.audit.Some? && Names(s.disk.journal) <= Names(t.disk.journal)
  }

  lemma SaveFirst(s: State, p: Process, rows: seq<Row>)
    requires forall n: int | n in Names(s.disk.journal) :: exists row :: row in rows && row.name == n
    ensures Names(s.disk.journal) <= Names(WriteJournal(s, p, rows).disk.journal)
    ensures Covered(WriteJournal(s, p, rows))
  {
    SaveFacts(p.retained, rows);
    Sets.IntSubset(Names(s.disk.journal), Save(p.retained, rows).Keys);
  }

  lemma AuditedStep(w: Library, s: State, step: Step)
    requires Enabled(w, s, step) && JournalInOrder(w, s) && GuardedOnceAudited(w, s, step) && s.disk.audit.Some?
    ensures var t := Next(w, s, step);
      JournalInOrder(w, t) && t.disk.audit.Some? && Names(s.disk.journal) <= Names(t.disk.journal)
  {
    if Covered(s) {
      StepGrowsJournal(w, s, step);
    } else if step.InCell? {
      var p := s.process.value;
      var a := p.active.value;
      SaveFirst(s, p.(active := Some(a.(stage := Selecting))), p.result + a.screened);
    }
  }

  /** The first audit write. */
  lemma FirstAuditStep(w: Library, s: State, step: Step)
    requires Enabled(w, s, step) && JournalInOrder(w, s)
    requires s.disk.audit.None? && Next(w, s, step).disk.audit.Some?
    ensures JournalInOrder(w, Next(w, s, step))
  {
    if step.InCell? && step.step.Screen? {
      var p, row := s.process.value, step.step.row;
      var rows := p.result + (p.active.value.screened + [row]);
      assert rows == [row];
      forall n: int | n in Names(s.disk.journal)
        ensures row in rows && row.name == n
      {
        assert n in FirstIds(w, p.search);
      }
      assert SavingFirst(Next(w, s, step));
    }
  }

  lemma UnauditedStep(w: Library, s: State, step: Step)
    requires Enabled(w, s, step) && JournalInOrder(w, s) && GuardedOnceAudited(w, s, step)
    requires s.disk.audit.None? && Next(w, s, step).disk.audit.None?
    ensures JournalInOrder(w, Next(w, s, step))
  {
    StepKeepsBeforeAudit(w, s, step);
    UnauditedWrite(w, s, step);
  }

  lemma StepKeepsOrder(w: Library, s: State, step: Step)
    requires Enabled(w, s, step) && JournalInOrder(w, s) && GuardedOnceAudited(w, s, step)
    ensures JournalInOrder(w, Next(w, s, step)) && NamesKept(s, Next(w, s, step))
  {
    if s.disk.audit.Some? {
      AuditedStep(w, s, step);
    } else if Next(w, s, step).disk.audit.Some? {
      FirstAuditStep(w, s, step);
    } else {
      UnauditedStep(w, s, step);
    }
  }

  lemma StaysInOrder(w: Library, states: seq<State>, steps: seq<Step>, i: nat)
    requires IsRun(w, states, steps) && i < |states| && states[0].process.None?
    requires forall k | 0 <= k < |steps| :: GuardedOnceAudited(w, states[k], steps[k])
    ensures JournalInOrder(w, states[i])
  {
    var kept := (s: State) => JournalInOrder(w, s);
    forall k | 0 <= k < |steps| && kept(states[k])
      ensures kept(states[k + 1])
    {
      StepKeepsOrder(w, states[k], steps[k]);
    }
    Along(states, kept, i);
  }

  /** Along any run from a stop whose restarts satisfy SafeOnceAudited: from the first audit write on, no
      journaled name is lost, whatever number of crashes it has. */
  lemma OnceAudited(w: Library, states: seq<State>, steps: seq<Step>, i: nat, j: nat)
    requires IsRun(w, states, steps) && i <= j < |states| && states[0].process.None?
    requires forall k | 0 <= k < |steps| :: GuardedOnceAudited(w, states[k], steps[k])
    ensures NamesKept(states[i], states[j])
  {
    StaysInOrder(w, states, steps, i);
    var kept := (s: State) => JournalInOrder(w, s) && NamesKept(states[i], s);
    forall k | 0 <= k < |steps| - i && kept(states[i..][k])
      ensures kept(states[i..][k + 1])
    {
      StepKeepsOrder(w, states[i + k], steps[i + k]);
    }
    Along(states[i..], kept, j - i);
  }

  // --- the exact condition at one restart

  /** Nothing the process can do loses a name that was journaled when there was an audit file. */
  ghost predicate KeepsNamesOnceAudited(w: Library, s: State, start: Step) {
    forall states: seq<State>, steps: seq<Step>, i: nat | RestartRun(w, states, steps, s, start) && i < |states| ::
      NamesKept(states[i], states[|states| - 1])
  }

  /** Without an audit file, names other than the first candidate survive the first audit write and are
      lost by the journal write after it, when the first measurement fails. */
  lemma UnsafeFirstSave(w: Library, s: State, identity: nat, search: Search, resume: bool)
    returns (states: seq<State>, steps: seq<Step>)
    requires s.process.None? && s.disk.audit.None? && !SafeOnceAudited(w, s, search, resume)
    ensures RestartRun(w, states, steps, s, Start(identity, search, resume)) && NoClock(steps) && |states| == 6
    ensures !NamesKept(states[4], states[5])
  {
    var row, save := FirstRow(FirstPlan(w, search), false, {}), InCell(SaveScreens);
    states, steps := AuditsFirst(w, s, identity, search, resume);
    RestartGoesOn(w, states, steps, s, Start(identity, search, resume), save);
    OneRowWrite(map[], row);
    assert [] + [row] == [row];
    states, steps := states + [Next(w, states[4], save)], steps + [save];
  }

  /** The exact condition for "no name is lost once there is an audit file", at one restart. */
  lemma OnceAuditedIff(w: Library, s: State, identity: nat, search: Search, resume: bool)
    requires s.process.None? && search.workloads != []
    ensures KeepsNamesOnceAudited(w, s, Start(identity, search, resume)) <==> SafeOnceAudited(w, s, search, resume)
  {
    var start := Start(identity, search, resume);
    if SafeOnceAudited(w, s, search, resume) {
      forall states: seq<State>, steps: seq<Step>, i: nat | RestartRun(w, states, steps, s, start) && i < |states|
        ensures NamesKept(states[i], states[|states| - 1])
      {
        OnceAudited(w, states, steps, i, |states| - 1);
      }
    } else if s.disk.audit.Some? {
      var states, steps := UnsafeRestartLoses(w, s, identity, search, resume);
      assert RestartRun(w, states, steps, s, start) && !NamesKept(states[0], states[|states| - 1]);
    } else {
      var states, steps := UnsafeFirstSave(w, s, identity, search, resume);
      assert RestartRun(w, states, steps, s, start) && !NamesKept(states[4], states[|states| - 1]);
    }
  }

  // --- runs that always resume

  ghost predicate AlwaysResumes(steps: seq<Step>) {
    forall k | 0 <= k < |steps| && steps[k].Start? :: steps[k].resume
  }

  /** The searches that measure anything agree on the first candidate. */
  ghost predicate SameFirst(w: Library, searches: iset<Search>) {
    forall a, b | a in searches && b in searches ::
      FirstIds(w, a) == {} || FirstIds(w, b) == {} || FirstIds(w, a) == FirstIds(w, b)
  }

  lemma SameFirstIsSafe(w: Library, states: seq<State>, steps: seq<Step>, searches: iset<Search>, k: nat)
    requires IsRun(w, states, steps) && states[0] == INITIAL && AlwaysResumes(steps) && RunsOf(steps, searches)
    requires SameFirst(w, searches) && k < |steps|
    ensures GuardedOnceAudited(w, states[k], steps[k])
  {
    if steps[k].Start? && states[k].disk.audit.None? {
      AuditlessJournalHoldsOne(w, states, steps, searches, k);
      var names, b := Names(states[k].disk.journal), steps[k].search;
      if names != {} {
        var a :| a in searches && names <= FirstIds(w, a);
        assert FirstIds(w, a) != {};
      }
    }
  }

  /** Every restart resumes the same search. */
  ghost predicate SameSearch(steps: seq<Step>, search: Search) {
    AlwaysResumes(steps) && RunsOf(steps, iset{search})
  }

  lemma SameSearchIsSafe(w: Library, states: seq<State>, steps: seq<Step>, search: Search)
    requires IsRun(w, states, steps) && states[0] == INITIAL && SameSearch(steps, search)
    ensures forall k | 0 <= k < |steps| :: GuardedOnceAudited(w, states[k], steps[k])
  {
    forall k | 0 <= k < |steps|
      ensures GuardedOnceAudited(w, states[k], steps[k])
    {
      SameFirstIsSafe(w, states, steps, iset{search}, k);
    }
  }

  /** In every run from an empty directory that always resumes the same search, with crashes anywhere and
      clock stops: once the audit file exists it stays and no journaled name is ever lost. */
  lemma JournalNeverShrinks(
    w: Library, states: seq<State>, steps: seq<Step>, search: Search, i: nat, j: nat)
    requires IsRun(w, states, steps) && states[0] == INITIAL && SameSearch(steps, search)
    requires i <= j < |states| && states[i].disk.audit.Some?
    ensures states[j].disk.audit.Some? && Names(states[i].disk.journal) <= Names(states[j].disk.journal)
  {
    SameSearchIsSafe(w, states, steps, search);
    OnceAudited(w, states, steps, i, j);
  }

  /** A first process journals the row of its first candidate and dies before its first audit write. */
  lemma DiesBeforeAudit(w: Library, search: Search) returns (states: seq<State>, steps: seq<Step>)
    requires FirstIds(w, search) != {}
    ensures |states| == 6 && IsRun(w, states, steps) && states[0] == INITIAL && NoClock(steps)
    ensures steps != [] && steps[0] == Start(0, search, true) && forall k | 0 < k < |steps| :: !steps[k].Start?
    ensures var s := states[5];
      s.process.None? && s.disk.audit.None? && Names(s.disk.journal) == FirstIds(w, search)
  {
    states, steps := JournalsFirst(w, INITIAL, 0, search, true);
    RestartGoesOn(w, states, steps, INITIAL, Start(0, search, true), Crash);
    states, steps := states + [Next(w, states[4], Crash)], steps + [Crash];
  }

  lemma RunThenRun(w: Library, states: seq<State>, steps: seq<Step>, more: seq<State>, rest: seq<Step>)
    requires IsRun(w, states, steps) && IsRun(w, more, rest) && states[|states| - 1] == more[0]
    ensures IsRun(w, states + more[1..], steps + rest)
  {
    var all, path := states + more[1..], steps + rest;
    forall i | 0 <= i < |path|
      ensures Enabled(w, all[i], path[i]) && all[i + 1] == Next(w, all[i], path[i])
    {
      if i >= |steps| {
        assert all[i] == more[i - |steps|] && all[i + 1] == more[i - |steps| + 1];
      }
    }
  }

  /** Two searches with different first candidates: a run from an empty directory, all of whose restarts
      resume and no clock stops, that loses a name although the audit file exists. */
  lemma JournalCanShrinkOnce(w: Library, a: Search, b: Search)
    returns (states: seq<State>, steps: seq<Step>, i: nat)
    requires FirstIds(w, a) != {} && FirstIds(w, b) != {} && FirstIds(w, a) != FirstIds(w, b)
    ensures IsRun(w, states, steps) && states[0] == INITIAL && AlwaysResumes(steps) && RunsOf(steps, iset{a, b})
    ensures NoClock(steps) && i + 1 < |states| && !NamesKept(states[i], states[i + 1])
  {
    var first, path := DiesBeforeAudit(w, a);
    var more, rest := UnsafeFirstSave(w, first[5], 0, b, true);
    RunThenRun(w, first, path, more, rest);
    states, steps, i := first + more[1..], path + rest, 9;
    assert states[9] == more[4] && states[10] == more[5];
  }

  /** No run of these searches from an empty directory whose restarts all resume loses a name once there is
      an audit file. */
  ghost predicate ResumingKeepsNames(w: Library, searches: iset<Search>) {
    forall states: seq<State>, steps: seq<Step>, i: nat, j: nat |
      && IsRun(w, states, steps) && states[0] == INITIAL && AlwaysResumes(steps) && RunsOf(steps, searches)
      && i <= j < |states| ::
      NamesKept(states[i], states[j])
  }

  /** Resuming is enough, whatever the searches, if and only if they agree on the first candidate. */
  lemma ResumingKeepsNamesIff(w: Library, searches: iset<Search>)
    ensures ResumingKeepsNames(w, searches) <==> SameFirst(w, searches)
  {
    if SameFirst(w, searches) {
      forall states: seq<State>, steps: seq<Step>, i: nat, j: nat |
        && IsRun(w, states, steps) && states[0] == INITIAL && AlwaysResumes(steps) && RunsOf(steps, searches)
        && i <= j < |states|
        ensures NamesKept(states[i], states[j])
      {
        forall k | 0 <= k < |steps|
          ensures GuardedOnceAudited(w, states[k], steps[k])
        {
          SameFirstIsSafe(w, states, steps, searches, k);
        }
        OnceAudited(w, states, steps, i, j);
      }
    } else {
      var a, b :| a in searches && b in searches
        && FirstIds(w, a) != {} && FirstIds(w, b) != {} && FirstIds(w, a) != FirstIds(w, b);
      var states, steps, i := JournalCanShrinkOnce(w, a, b);
      assert RunsOf(steps, searches);
      assert !NamesKept(states[i], states[i + 1]);
    }
  }
}
