/** The search as a crash/restart protocol over two checkpoint files. Every step below performs
    at most one atomic checkpoint write, and a crash may come between any two steps. */
module SearchRuns {
  import Sets
  import opened Sorting
  import opened Options
  import opened StratifiedOrder
  import opened ResumePrefix
  import opened Screening

  // ------------------------------------------------------------------- state

  /** The audit file: the measured binaries, the search protocol and one cell per workload. */
  datatype Audit = Audit(identity: nat, settings: nat, cells: seq<Cell>)

  type Journal = map<int, Row>

  datatype Disk = Disk(audit: Option<Audit>, journal: Option<Journal>)

  datatype Stage =
    | Selecting
    | Measuring(point: Point)  // chosen, not yet screened
    | Saving                   // audit written, journal not yet
    | Settling(next: nat)      // finalist confirmation, row by row
    | Settled

  /** The cell being searched. `picked` is a history variable: the identities selected since
      the cell was last opened afresh, in order. */
  datatype Active = Active(cell: Cell, screened: seq<Row>, remaining: seq<Point>, stage: Stage, picked: seq<int>)

  /** What the command line asks for: the search protocol, which the audit records, and the workload file,
      which it does not. */
  datatype Search = Search(settings: nat, workloads: seq<nat>)

  /** `history` is a history variable: the selections of the unfinished cell that the process has loaded. */
  datatype Process = Process(identity: nat, search: Search, loaded: bool, retained: Journal, resumable: seq<Cell>,
                             history: seq<int>, done: seq<Cell>, result: seq<Row>, active: Option<Active>)

  /** `log` is a history variable: the selections made for the audit's unfinished cell up to the
      last time the audit was written. */
  datatype State = State(disk: Disk, process: Option<Process>, log: seq<int>)

  /** What a search protocol finds to search: the plan of each workload. The linked library and
      the seed snapshot are taken to be fixed by them. */
  type Library = (nat, nat) -> Plan

  ghost predicate ValidLibrary(w: Library) {
    forall settings: nat, workload: nat :: ValidPlan(w(settings, workload))
  }

  /** What a running search does inside a cell. */
  datatype CellStep =
    | Choose(k: nat)
    | Trial(row: Row)
    | Screen(row: Row)
    | SaveScreens
    | EndScreening(timedOut: bool)
    | Confirm(row: Row)
    | Settle(row: Row)
    | SaveResult
    | CloseCell

  datatype Step =
    | Start(identity: nat, search: Search, resume: bool)
    | OpenCell
    | InCell(step: CellStep)
    | Finish
    | Crash

  const INITIAL := State(Disk(None, None), None, [])

  // ------------------------------------------------------------------- rows

  ghost predicate GoodRow(row: Row) {
    row.configuration.Some? && CandidateId(row.configuration.value) == row.name
  }

  ghost predicate GoodRows(rows: seq<Row>) {
    forall row | row in rows :: GoodRow(row)
  }

  ghost predicate GoodJournal(m: Journal) {
    forall n: int | n in m :: m[n].name == n && GoodRow(m[n])
  }

  /** retained.update(...): later rows win. */
  function Save(m: Journal, rows: seq<Row>): Journal
    decreases |rows|
  {
    if rows == [] then m else Save(m[rows[0].name := rows[0]], rows[1..])
  }

  lemma {:induction false} SaveFacts(m: Journal, rows: seq<Row>)
    ensures forall n: int :: n in Save(m, rows) <==> n in m || exists row :: row in rows && row.name == n
    ensures GoodJournal(m) && GoodRows(rows) ==> GoodJournal(Save(m, rows))
    decreases |rows|
  {
    if rows != [] {
      var m1 := m[rows[0].name := rows[0]];
      assert rows == [rows[0]] + rows[1..];
      SaveFacts(m1, rows[1..]);
    }
  }

  function Names(j: Option<Journal>): set<int> {
    if j.Some? then j.value.Keys else {}
  }

  // ---------------------------------------------------------- candidate lists

  function Listed(inventory: seq<Point>): (r: seq<Candidate>)
    ensures |r| == |inventory|
    ensures forall i | 0 <= i < |r| :: r[i] == Candidate(Some(inventory[i].id), Some(inventory[i]), None)
  {
    seq(|inventory|, i requires 0 <= i < |inventory| => Candidate(Some(inventory[i].id), Some(inventory[i]), None))
  }

  /** Write the selection index into the entry of the chosen candidate. */
  function Mark(candidates: seq<Candidate>, id: int, turn: nat): (r: seq<Candidate>)
    ensures |r| == |candidates|
    ensures forall k | 0 <= k < |r| :: r[k] ==
              if candidates[k].Candidate? && candidates[k].id == Some(id)
              then candidates[k].(selectionIndex := Some(turn)) else candidates[k]
  {
    seq(|candidates|, k requires 0 <= k < |candidates| =>
      if candidates[k].Candidate? && candidates[k].id == Some(id)
      then candidates[k].(selectionIndex := Some(turn)) else candidates[k])
  }

  function FreshCell(workload: nat, plan: Plan): Cell {
    Cell(workload, Listed(plan.inventory), Some(0), Some(Budget(plan)), false)
  }

  /** The dictionary built from the previous cells; for equal workloads the last one wins. */
  function FindCell(cells: seq<Cell>, workload: nat, complete: bool): Option<Cell> {
    if cells == [] then None
    else
      var c := cells[|cells| - 1];
      if c.workload == workload && c.complete == complete then Some(c)
      else FindCell(cells[..|cells| - 1], workload, complete)
  }

  /** Inventory points that a resumed candidate list does not show yet. */
  function Missing(inventory: seq<Point>, candidates: seq<Candidate>): seq<Point> {
    if inventory == [] then []
    else
      (if exists c | c in candidates :: c.Candidate? && c.id == Some(inventory[0].id) then [] else [inventory[0]])
      + Missing(inventory[1..], candidates)
  }

  function RowsOf(candidates: seq<Candidate>, retained: Journal): seq<Row> {
    if candidates == [] then []
    else
      var c := candidates[0];
      (if c.Candidate? && c.id.Some? && c.id.value in retained then [retained[c.id.value]] else [])
      + RowsOf(candidates[1..], retained)
  }

  // ------------------------------------------------------------------- steps

  /** The candidate a turn selects. */
  function Chosen(plan: Plan, a: Active, k: nat): Point
    requires |a.screened| < |plan.seeds| || k < |a.remaining|
  {
    if |a.screened| < |plan.seeds| then plan.seeds[|a.screened|] else a.remaining[k]
  }

  /** A measurement of the point: its samples are new, or taken over from the row retained for it. */
  ghost predicate Measures(p: Process, name: int, row: Row) {
    && GoodRow(row) && row.name == name
    && row.binaries <= {p.identity} + if name in p.retained then p.retained[name].binaries else {}
  }

  ghost predicate CellEnabled(plan: Plan, p: Process, a: Active, step: CellStep) {
    match step
    case Choose(k) =>
      && a.stage.Selecting? && |a.screened| < Budget(plan)
      && (|a.screened| >= |plan.seeds| ==> k < |a.remaining| && (Explores(plan, |a.screened|) ==> k == 0))
    case Trial(row) => a.stage.Measuring? && Measures(p, a.stage.point.id, row)
    case Screen(row) => a.stage.Measuring? && Measures(p, a.stage.point.id, row)
    case SaveScreens => a.stage.Saving?
    case EndScreening(timedOut) => a.stage.Selecting? && (timedOut || |a.screened| == Budget(plan))
    case Confirm(row) => AtRow(p, a, row)
    case Settle(row) => AtRow(p, a, row)
    case SaveResult => a.stage.Settling? && a.stage.next == |a.screened|
    case CloseCell => a.stage.Settled?
  }

  /** Confirmation has reached the screened row of that name. */
  ghost predicate AtRow(p: Process, a: Active, row: Row) {
    && a.stage.Settling? && a.stage.next < |a.screened|
    && Measures(p, a.screened[a.stage.next].name, row)
  }

  ghost predicate Enabled(w: Library, s: State, step: Step) {
    match step
    case Start(identity, _, resume) =>
      // A resume over files of other binaries raises instead.
      && s.process.None?
      && (resume && s.disk.audit.Some? && s.disk.journal.Some? ==> s.disk.audit.value.identity == identity)
    case OpenCell =>
      s.process.Some? && s.process.value.active.None? && |s.process.value.done| < |s.process.value.search.workloads|
    case InCell(step) =>
      && s.process.Some? && s.process.value.active.Some?
      && |s.process.value.done| < |s.process.value.search.workloads|
      && CellEnabled(CurrentPlan(w, s.process.value), s.process.value, s.process.value.active.value, step)
    case Finish =>
      && s.process.Some? && s.process.value.active.None?
      && |s.process.value.done| == |s.process.value.search.workloads|
    case Crash => s.process.Some?
  }

  function CurrentWorkload(p: Process): nat
    requires |p.done| < |p.search.workloads|
  {
    p.search.workloads[|p.done|]
  }

  function CurrentPlan(w: Library, p: Process): Plan
    requires |p.done| < |p.search.workloads|
  {
    w(p.search.settings, CurrentWorkload(p))
  }

  /** A journal write: memory and file agree afterwards. */
  function WriteJournal(s: State, p: Process, rows: seq<Row>): State {
    var retained := Save(p.retained, rows);
    s.(disk := s.disk.(journal := Some(retained)), process := Some(p.(retained := retained)))
  }

  function WriteAudit(s: State, p: Process, cells: seq<Cell>, log: seq<int>): State {
    s.(disk := s.disk.(audit := Some(Audit(p.identity, p.search.settings, cells))), log := log)
  }

  function Started(s: State, identity: nat, search: Search, resume: bool): Process {
    var load := resume && s.disk.audit.Some? && s.disk.journal.Some?;
    Process(identity, search, load, if load then s.disk.journal.value else map[],
            if load && s.disk.audit.value.settings == search.settings then s.disk.audit.value.cells else [],
            s.log, [], [], None)
  }

  /** The unfinished cell of the current workload can be continued at once. */
  ghost predicate ResumesFast(plan: Plan, p: Process)
    requires |p.done| < |p.search.workloads|
  {
    var cell := FindCell(p.resumable, CurrentWorkload(p), false);
    && cell.Some?
    && var prefix := RecoveredPrefix(cell.value, p.retained);
       && prefix.Some? && prefix.value != []
       && (cell.value.requested.None? || cell.value.requested.value == Budget(plan))
       && |prefix.value| <= Budget(plan)
  }

  ghost function Resumed(plan: Plan, p: Process): Active
    requires |p.done| < |p.search.workloads| && ResumesFast(plan, p)
  {
    var cell := FindCell(p.resumable, CurrentWorkload(p), false).value;
    var prefix := RecoveredPrefix(cell, p.retained).value;
    var ids := seq(|prefix|, i requires 0 <= i < |prefix| => prefix[i].configuration.id);
    var rows := seq(|prefix|, i requires 0 <= i < |prefix| => prefix[i].row);
    Active(Cell(CurrentWorkload(p), cell.candidates + Listed(Missing(plan.inventory, cell.candidates)),
                Some(|prefix|), Some(Budget(plan)), false),
           rows, Unscreened(plan.order, ids), Selecting, p.history)
  }

  ghost function Opened(w: Library, p: Process): Process
    requires |p.done| < |p.search.workloads|
  {
    var plan, finished := CurrentPlan(w, p), FindCell(p.resumable, CurrentWorkload(p), true);
    if finished.Some? then
      p.(done := p.done + [finished.value], result := p.result + RowsOf(finished.value.candidates, p.retained))
    else if ResumesFast(plan, p) then p.(active := Some(Resumed(plan, p)))
    else p.(active := Some(Active(FreshCell(CurrentWorkload(p), plan), [], plan.order, Selecting, [])))
  }

  ghost function CellNext(s: State, p: Process, plan: Plan, a: Active, step: CellStep): State
    requires CellEnabled(plan, p, a, step)
  {
    match step
    case Choose(k) =>
      var point := Chosen(plan, a, k);
      s.(process := Some(p.(active := Some(a.(
        cell := a.cell.(candidates := Mark(a.cell.candidates, point.id, |a.screened|)),
        remaining := Unscreened(a.remaining, [point.id]),
        stage := Measuring(point))))))
    case Trial(row) => WriteJournal(s, p, [row])
    case Screen(row) =>
      var screened := a.screened + [row];
      var next := a.(cell := a.cell.(screened := Some(|screened|)), screened := screened, stage := Saving,
                     picked := a.picked + [row.name]);
      WriteAudit(s, p, p.done + [next.cell], next.picked).(process := Some(p.(active := Some(next))))
    case SaveScreens =>
      WriteJournal(s, p.(active := Some(a.(stage := Selecting))), p.result + a.screened)
    case EndScreening(_) => s.(process := Some(p.(active := Some(a.(stage := Settling(0))))))
    case Confirm(row) => WriteJournal(s, p, [row])
    case Settle(row) =>
      var result, next := p.result + [row], a.stage.next + 1;
      WriteJournal(s, p.(result := result, active := Some(a.(stage := Settling(next)))), result + a.screened[next..])
    case SaveResult => WriteJournal(s, p.(active := Some(a.(stage := Settled))), p.result)
    case CloseCell =>
      var cell := a.cell.(complete := true);
      WriteAudit(s, p, p.done + [cell], []).(process := Some(p.(done := p.done + [cell], active := None)))
  }

  ghost function Next(w: Library, s: State, step: Step): State
    requires Enabled(w, s, step)
  {
    match step
    case Start(identity, search, resume) => s.(process := Some(Started(s, identity, search, resume)))
    case OpenCell => s.(process := Some(Opened(w, s.process.value)))
    case InCell(step) =>
      CellNext(s, s.process.value, CurrentPlan(w, s.process.value), s.process.value.active.value, step)
    case Finish => WriteAudit(s, s.process.value, s.process.value.done, s.log).(process := None)
    case Crash => s.(process := None)
  }

  // ------------------------------------------------------------- invariants

  /** Every candidate is recorded once, under its own identity, and the inventory is complete. */
  ghost predicate ListOk(plan: Plan, candidates: seq<Candidate>) {
    && (forall k | 0 <= k < |candidates| ::
          && candidates[k].Candidate? && candidates[k].id.Some? && candidates[k].configuration.Some?
          && candidates[k].configuration.value.id == candidates[k].id.value)
    && (forall j, k | 0 <= j < k < |candidates| :: candidates[j].id != candidates[k].id)
    && (forall p | p in plan.inventory :: exists k :: 0 <= k < |candidates| && candidates[k].id == Some(p.id))
  }

  /** The recorded turns are exactly the selections. */
  ghost predicate TurnsOk(candidates: seq<Candidate>, sel: seq<int>) {
    && (forall k | 0 <= k < |candidates| :: TurnIsSelection(candidates[k], sel))
    && (forall x | 0 <= x < |sel| :: TurnRecorded(candidates, x))
  }

  ghost predicate TurnIsSelection(c: Candidate, sel: seq<int>) {
    c.Candidate? && c.selectionIndex.Some? ==>
      0 <= c.selectionIndex.value < |sel| && c.id == Some(sel[c.selectionIndex.value])
  }

  ghost predicate TurnRecorded(candidates: seq<Candidate>, x: int) {
    exists k :: 0 <= k < |candidates| && Claims(candidates[k], x)
  }

  ghost predicate CellOk(plan: Plan, cell: Cell, sel: seq<int>) {
    && ListOk(plan, cell.candidates) && TurnsOk(cell.candidates, sel)
    && cell.screened == Some(|sel|) && cell.requested == Some(Budget(plan)) && !cell.complete
    && Legal(plan, sel)
  }

  ghost predicate InJournal(j: Option<Journal>, sel: seq<int>, n: int) {
    forall x | 0 <= x < n && x < |sel| :: sel[x] in Names(j)
  }

  /** The first n cells are finished. */
  predicate Finished(cells: seq<Cell>, n: nat) {
    n <= |cells| && forall i | 0 <= i < n :: cells[i].complete
  }

  predicate HasUnfinished(cells: seq<Cell>) {
    cells != [] && !cells[|cells| - 1].complete
  }

  /** The cells of an audit file: finished ones, then at most one unfinished cell whose records
      are the history. */
  ghost predicate CellsOk(w: Library, settings: nat, cells: seq<Cell>, log: seq<int>) {
    if HasUnfinished(cells) then
      var last := cells[|cells| - 1];
      Finished(cells, |cells| - 1) && log != [] && CellOk(w(settings, last.workload), last, log)
    else Finished(cells, |cells|)
  }

  ghost predicate DiskOk(w: Library, s: State) {
    && (s.disk.journal.Some? ==> GoodJournal(s.disk.journal.value))
    && (s.disk.audit.Some? ==> CellsOk(w, s.disk.audit.value.settings, s.disk.audit.value.cells, s.log))
  }

  ghost predicate ScreenedOk(screened: seq<Row>, picked: seq<int>) {
    && |screened| == |picked| && GoodRows(screened)
    && forall i | 0 <= i < |picked| :: screened[i].name == picked[i]
  }

  /** The first n picked rows are safe: memory and file agree and hold them. */
  ghost predicate Safe(p: Process, journal: Option<Journal>, picked: seq<int>, n: nat) {
    n > 0 && picked != [] ==> journal == Some(p.retained) && InJournal(journal, picked, n)
  }

  ghost predicate ActiveOk(plan: Plan, p: Process, a: Active, journal: Option<Journal>) {
    && |p.done| < |p.search.workloads| && a.cell.workload == CurrentWorkload(p)
    && ScreenedOk(a.screened, a.picked)
    && match a.stage
       case Measuring(point) =>
         && CellOk(plan, a.cell.(screened := Some(|a.picked| + 1)), a.picked + [point.id])
         && a.cell.screened == Some(|a.picked|)
         && a.remaining == Unscreened(plan.order, a.picked + [point.id])
         && Safe(p, journal, a.picked, |a.picked|)
       case Saving =>
         && CellOk(plan, a.cell, a.picked) && a.picked != []
         && a.remaining == Unscreened(plan.order, a.picked)
         && Safe(p, journal, a.picked, |a.picked| - 1)
       case _ =>
         && CellOk(plan, a.cell, a.picked)
         && a.remaining == Unscreened(plan.order, a.picked)
         && Safe(p, journal, a.picked, |a.picked|)
  }

  /** The finished cells follow the workload file. */
  predicate DoneOk(p: Process) {
    && |p.done| <= |p.search.workloads|
    && forall i | 0 <= i < |p.done| :: p.done[i].complete && p.done[i].workload == p.search.workloads[i]
  }

  ghost predicate ProcessOk(w: Library, s: State, p: Process) {
    && GoodJournal(p.retained) && GoodRows(p.result) && DoneOk(p)
    && (p.loaded ==> s.disk.audit.Some? && s.disk.journal == Some(p.retained))
    && (s.disk.journal == Some(p.retained) || (p.retained == map[] && !p.loaded))
    && (p.resumable != [] ==> p.loaded) && CellsOk(w, p.search.settings, p.resumable, p.history)
    && (p.active.Some? ==>
          && |p.done| < |p.search.workloads|
          && ActiveOk(CurrentPlan(w, p), p, p.active.value, s.disk.journal))
  }

  ghost predicate Inv(w: Library, s: State) {
    DiskOk(w, s) && (s.process.Some? ==> ProcessOk(w, s, s.process.value))
  }

  // ------------------------------------------------- records and prefixes

  /** On a consistent cell the recovered prefix is the history, row by row. */
  lemma PrefixIsHistory(plan: Plan, cell: Cell, sel: seq<int>, retained: Journal, prefix: seq<Selection>)
    requires CellOk(plan, cell, sel) && IsPrefix(cell, retained, prefix)
    ensures |prefix| == |sel|
    ensures forall i | 0 <= i < |sel| ::
              && prefix[i].configuration.id == sel[i] && prefix[i].row.name == sel[i] && GoodRow(prefix[i].row)
              && sel[i] in retained && prefix[i].row == retained[sel[i]]
  {
  }

  /** And it exists exactly when every selection has its row. */
  lemma RecoverableWhenJournaled(plan: Plan, cell: Cell, sel: seq<int>, retained: Journal)
    requires CellOk(plan, cell, sel) && sel != [] && GoodJournal(retained)
    ensures Recoverable(cell, retained) <==> forall i | 0 <= i < |sel| :: sel[i] in retained
  {
    if Recoverable(cell, retained) {
      forall i | 0 <= i < |sel|
        ensures sel[i] in retained
      {
        assert TurnPersisted(cell.candidates, i, retained);
      }
    }
    if forall i | 0 <= i < |sel| :: sel[i] in retained {
      forall i: int | 0 <= i < |sel|
        ensures TurnPersisted(cell.candidates, i, retained)
      {
        assert TurnRecorded(cell.candidates, i);
        var k :| 0 <= k < |cell.candidates| && Claims(cell.candidates[k], i);
        assert sel[i] in retained;
        assert Persisted(cell.candidates[k], retained);
      }
      forall j, k, i: int | 0 <= j < k < |cell.candidates| && i >= 0 && Claims(cell.candidates[j], i)
        ensures !Claims(cell.candidates[k], i)
      {
      }
    }
  }

  /** The dictionaries hold the last cell of each workload. */
  lemma {:induction false} FindCellFacts(cells: seq<Cell>, workload: nat, complete: bool)
    ensures var found := FindCell(cells, workload, complete);
      && (found.Some? ==> found.value in cells && found.value.workload == workload && found.value.complete == complete)
      && (found.None? ==> forall c | c in cells :: c.workload != workload || c.complete != complete)
    decreases |cells|
  {
    if cells != [] {
      FindCellFacts(cells[..|cells| - 1], workload, complete);
    }
  }

  lemma {:induction false} NothingMissing(inventory: seq<Point>, candidates: seq<Candidate>)
    requires forall k | 0 <= k < |candidates| :: candidates[k].Candidate?
    requires forall p | p in inventory :: exists k :: 0 <= k < |candidates| && candidates[k].id == Some(p.id)
    ensures Missing(inventory, candidates) == []
  {
    if inventory != [] {
      var p := inventory[0];
      assert p in inventory;
      var k :| 0 <= k < |candidates| && candidates[k].id == Some(p.id);
      assert candidates[k] in candidates;
      NothingMissing(inventory[1..], candidates);
    }
  }

  lemma {:induction false} RowsOfGood(candidates: seq<Candidate>, retained: Journal)
    requires GoodJournal(retained)
    ensures GoodRows(RowsOf(candidates, retained))
  {
    if candidates != [] {
      RowsOfGood(candidates[1..], retained);
      var c, rest := candidates[0], RowsOf(candidates[1..], retained);
      var head := if c.Candidate? && c.id.Some? && c.id.value in retained then [retained[c.id.value]] else [];
      assert RowsOf(candidates, retained) == head + rest;
      forall row | row in head + rest
        ensures GoodRow(row)
      {
        if row in rest {
        } else {
          assert row in head;
          var n := c.id.value;
          assert n in retained && row == retained[n];
          assert GoodRow(retained[n]);
        }
      }
    }
  }

  lemma MarkTurn(plan: Plan, candidates: seq<Candidate>, sel: seq<int>, point: Point)
    requires ListOk(plan, candidates) && TurnsOk(candidates, sel) && point in plan.inventory && point.id !in sel
    ensures ListOk(plan, Mark(candidates, point.id, |sel|))
    ensures TurnsOk(Mark(candidates, point.id, |sel|), sel + [point.id])
  {
    var next, marked := sel + [point.id], Mark(candidates, point.id, |sel|);
    forall p | p in plan.inventory
      ensures exists k :: 0 <= k < |marked| && marked[k].id == Some(p.id)
    {
      var k :| 0 <= k < |candidates| && candidates[k].id == Some(p.id);
      assert marked[k].id == Some(p.id);
    }
    forall k | 0 <= k < |marked|
      ensures TurnIsSelection(marked[k], next)
    {
      assert TurnIsSelection(candidates[k], sel);
    }
    forall x | 0 <= x < |next|
      ensures TurnRecorded(marked, x)
    {
      if x < |sel| {
        assert TurnRecorded(candidates, x);
        var k :| 0 <= k < |candidates| && Claims(candidates[k], x);
        assert sel[x] in sel;
        assert Claims(marked[k], x);
      } else {
        var k :| 0 <= k < |candidates| && candidates[k].id == Some(point.id);
        assert Claims(marked[k], x);
      }
    }
  }

  // -------------------------------------------------- every step keeps Inv

  lemma StartKeepsInv(w: Library, s: State, identity: nat, search: Search, resume: bool)
    requires Inv(w, s) && Enabled(w, s, Start(identity, search, resume))
    ensures Inv(w, Next(w, s, Start(identity, search, resume)))
  {
  }

  lemma FreshCellOk(plan: Plan, workload: nat)
    requires ValidPlan(plan)
    ensures CellOk(plan, FreshCell(workload, plan), [])
    ensures Unscreened(plan.order, []) == plan.order
  {
    var c := Listed(plan.inventory);
    forall p | p in plan.inventory
      ensures exists k :: 0 <= k < |c| && c[k].id == Some(p.id)
    {
      var k :| 0 <= k < |plan.inventory| && plan.inventory[k] == p;
      assert c[k].id == Some(p.id);
    }
    UnscreenedAll(plan.order, []);
  }

  lemma ResumedOk(plan: Plan, p: Process, cell: Cell, journal: Option<Journal>)
    requires |p.done| < |p.search.workloads| && ResumesFast(plan, p)
    requires FindCell(p.resumable, CurrentWorkload(p), false) == Some(cell)
    requires CellOk(plan, cell, p.history) && journal == Some(p.retained)
    ensures ActiveOk(plan, p, Resumed(plan, p), journal)
  {
    var prefix := RecoveredPrefix(cell, p.retained).value;
    PrefixIsHistory(plan, cell, p.history, p.retained, prefix);
    NothingMissing(plan.inventory, cell.candidates);
    assert cell.candidates + [] == cell.candidates;
    assert seq(|prefix|, i requires 0 <= i < |prefix| => prefix[i].configuration.id) == p.history;
  }

  lemma TakeOverKeepsInv(w: Library, s: State, cell: Cell)
    requires Inv(w, s) && Enabled(w, s, OpenCell) && cell.complete && cell.workload == CurrentWorkload(s.process.value)
    ensures var p := s.process.value;
      Inv(w, s.(process := Some(p.(done := p.done + [cell], result := p.result + RowsOf(cell.candidates, p.retained)))))
  {
    RowsOfGood(cell.candidates, s.process.value.retained);
  }

  lemma ActivateKeepsInv(w: Library, s: State, a: Active)
    requires Inv(w, s) && Enabled(w, s, OpenCell)
    requires ActiveOk(CurrentPlan(w, s.process.value), s.process.value, a, s.disk.journal)
    ensures Inv(w, s.(process := Some(s.process.value.(active := Some(a)))))
  {
  }

  lemma FreshOk(plan: Plan, p: Process, journal: Option<Journal>)
    requires ValidPlan(plan) && |p.done| < |p.search.workloads|
    ensures ActiveOk(plan, p, Active(FreshCell(CurrentWorkload(p), plan), [], plan.order, Selecting, []), journal)
  {
    FreshCellOk(plan, CurrentWorkload(p));
  }

  /** The unfinished cell of a workload is the last one loaded. */
  lemma UnfinishedIsLast(w: Library, p: Process, workload: nat, cell: Cell)
    requires CellsOk(w, p.search.settings, p.resumable, p.history)
    requires FindCell(p.resumable, workload, false) == Some(cell)
    ensures CellOk(w(p.search.settings, workload), cell, p.history) && p.resumable != []
  {
    FindCellFacts(p.resumable, workload, false);
  }

  lemma OpenCellKeepsInv(w: Library, s: State)
    requires ValidLibrary(w) && Inv(w, s) && Enabled(w, s, OpenCell)
    ensures Inv(w, Next(w, s, OpenCell))
  {
    var p := s.process.value;
    var plan, workload := CurrentPlan(w, p), CurrentWorkload(p);
    var finished := FindCell(p.resumable, workload, true);
    if finished.Some? {
      FindCellFacts(p.resumable, workload, true);
      TakeOverKeepsInv(w, s, finished.value);
    } else if ResumesFast(plan, p) {
      var cell := FindCell(p.resumable, workload, false).value;
      UnfinishedIsLast(w, p, workload, cell);
      ResumedOk(plan, p, cell, s.disk.journal);
      ActivateKeepsInv(w, s, Resumed(plan, p));
    } else {
      FreshOk(plan, p, s.disk.journal);
      ActivateKeepsInv(w, s, Active(FreshCell(workload, plan), [], plan.order, Selecting, []));
    }
  }

  // --- steps inside a cell

  ghost predicate CellReady(w: Library, s: State, step: CellStep) {
    && ValidLibrary(w) && Inv(w, s) && Enabled(w, s, InCell(step))
  }

  lemma ChooseKeepsInv(w: Library, s: State, k: nat)
    requires CellReady(w, s, Choose(k))
    ensures Inv(w, Next(w, s, InCell(Choose(k))))
  {
    var p := s.process.value;
    var plan, a := CurrentPlan(w, p), p.active.value;
    assert ValidPlan(plan);
    var point := Chosen(plan, a, k);
    UnscreenedMembers(plan.order, a.picked);
    if |a.picked| < |plan.seeds| {
      assert point in plan.seeds;
    } else {
      assert point in a.remaining;
    }
    assert LegalTurn(plan, a.picked, point.id);
    LegalStep(plan, a.picked, point.id);
    LegalDistinct(plan, a.picked + [point.id]);
    FreshSelection(a.picked, point.id);
    MarkTurn(plan, a.cell.candidates, a.picked, point);
    UnscreenedStep(plan.order, a.picked, point.id);
  }

  lemma FreshSelection(sel: seq<int>, id: int)
    requires Distinct(sel + [id])
    ensures id !in sel
  {
    forall i | 0 <= i < |sel|
      ensures sel[i] != id
    {
      assert (sel + [id])[i] == sel[i] && (sel + [id])[|sel|] == id;
    }
  }

  /** A journal write of good rows only adds names to what the process holds, and afterwards
      memory and file agree. */
  lemma WriteFacts(p: Process, rows: seq<Row>)
    requires GoodJournal(p.retained) && GoodRows(rows)
    ensures GoodJournal(Save(p.retained, rows))
    ensures forall n: int | n in p.retained :: n in Save(p.retained, rows)
    ensures forall row | row in rows :: row.name in Save(p.retained, rows)
  {
    SaveFacts(p.retained, rows);
  }

  /** What picked rows are safe stays safe. */
  lemma SafeAfterWrite(p: Process, rows: seq<Row>, journal: Option<Journal>, picked: seq<int>, n: nat)
    requires GoodJournal(p.retained) && GoodRows(rows) && Safe(p, journal, picked, n)
    ensures InJournal(Some(Save(p.retained, rows)), picked, if picked == [] then 0 else n)
  {
    WriteFacts(p, rows);
    forall x | 0 <= x < n && x < |picked|
      ensures picked[x] in Save(p.retained, rows)
    {
      var id := picked[x];
      assert id in Names(journal);
      assert id in p.retained;
      assert id in Save(p.retained, rows);
    }
  }

  /** Journal writes that do not touch the cell. */
  lemma RowWriteKeepsInv(w: Library, s: State, step: CellStep, row: Row)
    requires CellReady(w, s, step) && (step == Trial(row) || step == Confirm(row))
    ensures Inv(w, Next(w, s, InCell(step)))
  {
    var p := s.process.value;
    var a := p.active.value;
    WriteFacts(p, [row]);
    SafeAfterWrite(p, [row], s.disk.journal, a.picked, |a.picked|);
  }

  lemma ScreenKeepsInv(w: Library, s: State, row: Row)
    requires CellReady(w, s, Screen(row))
    ensures Inv(w, Next(w, s, InCell(Screen(row))))
  {
  }

  lemma SaveScreensKeepsInv(w: Library, s: State)
    requires CellReady(w, s, SaveScreens)
    ensures Inv(w, Next(w, s, InCell(SaveScreens)))
  {
    var p := s.process.value;
    var a := p.active.value;
    var rows := p.result + a.screened;
    WriteFacts(p, rows);
    forall x | 0 <= x < |a.picked|
      ensures a.picked[x] in Save(p.retained, rows)
    {
      assert rows[|p.result| + x] == a.screened[x];
      assert a.screened[x] in rows;
    }
  }

  lemma SettleKeepsInv(w: Library, s: State, row: Row)
    requires CellReady(w, s, Settle(row))
    ensures Inv(w, Next(w, s, InCell(Settle(row))))
  {
    var p := s.process.value;
    var a := p.active.value;
    var rows := p.result + [row] + a.screened[a.stage.next + 1..];
    WriteFacts(p, rows);
    SafeAfterWrite(p, rows, s.disk.journal, a.picked, |a.picked|);
  }

  lemma SaveResultKeepsInv(w: Library, s: State)
    requires CellReady(w, s, SaveResult)
    ensures Inv(w, Next(w, s, InCell(SaveResult)))
  {
    var p := s.process.value;
    var a := p.active.value;
    WriteFacts(p, p.result);
    SafeAfterWrite(p, p.result, s.disk.journal, a.picked, |a.picked|);
  }

  lemma CloseKeepsInv(w: Library, s: State)
    requires CellReady(w, s, CloseCell)
    ensures Inv(w, Next(w, s, InCell(CloseCell)))
  {
  }

  predicate WritesJournal(step: CellStep) {
    step.Trial? || step.SaveScreens? || step.Confirm? || step.Settle? || step.SaveResult?
  }

  lemma WritingStepKeepsInv(w: Library, s: State, step: CellStep)
    requires CellReady(w, s, step) && WritesJournal(step)
    ensures Inv(w, Next(w, s, InCell(step)))
  {
    match step
    case Trial(row) => RowWriteKeepsInv(w, s, step, row);
    case SaveScreens => SaveScreensKeepsInv(w, s);
    case Confirm(row) => RowWriteKeepsInv(w, s, step, row);
    case Settle(row) => SettleKeepsInv(w, s, row);
    case SaveResult => SaveResultKeepsInv(w, s);
  }

  lemma CellStepKeepsInv(w: Library, s: State, step: CellStep)
    requires CellReady(w, s, step)
    ensures Inv(w, Next(w, s, InCell(step)))
  {
    match step
    case Choose(k) => ChooseKeepsInv(w, s, k);
    case Screen(row) => ScreenKeepsInv(w, s, row);
    case EndScreening(_) => EndKeepsInv(w, s, step);
    case CloseCell => CloseKeepsInv(w, s);
    case _ => WritingStepKeepsInv(w, s, step);
  }

  lemma EndKeepsInv(w: Library, s: State, step: CellStep)
    requires CellReady(w, s, step) && step.EndScreening?
    ensures Inv(w, Next(w, s, InCell(step)))
  {
  }

  lemma FinishKeepsInv(w: Library, s: State)
    requires Inv(w, s) && Enabled(w, s, Finish)
    ensures Inv(w, Next(w, s, Finish))
  {
  }

  /** Every step of every process keeps the invariant, crashes included. */
  lemma StepKeepsInv(w: Library, s: State, step: Step)
    requires ValidLibrary(w) && Inv(w, s) && Enabled(w, s, step)
    ensures Inv(w, Next(w, s, step))
  {
    match step
    case Start(identity, search, resume) => StartKeepsInv(w, s, identity, search, resume);
    case OpenCell => OpenCellKeepsInv(w, s);
    case InCell(step) => CellStepKeepsInv(w, s, step);
    case Finish => FinishKeepsInv(w, s);
    case Crash =>
  }

  // ------------------------------------------------------------- whole runs

  /** Any number of processes, each ending by finishing or crashing. */
  ghost predicate IsRun(w: Library, states: seq<State>, steps: seq<Step>) {
    && |states| == |steps| + 1
    && forall i | 0 <= i < |steps| :: Enabled(w, states[i], steps[i]) && states[i + 1] == Next(w, states[i], steps[i])
  }

  /** What holds at the start and is kept by every step holds throughout. */
  lemma {:induction false} Along(states: seq<State>, kept: State -> bool, i: nat)
    requires i < |states| && kept(states[0])
    requires forall k | 0 <= k < |states| - 1 && kept(states[k]) :: kept(states[k + 1])
    ensures kept(states[i])
  {
    if i > 0 {
      Along(states, kept, i - 1);
    }
  }

  lemma RunKeepsInv(w: Library, states: seq<State>, steps: seq<Step>, i: nat)
    requires ValidLibrary(w) && IsRun(w, states, steps) && i < |states| && Inv(w, states[0])
    ensures Inv(w, states[i])
  {
    var kept := (s: State) => Inv(w, s);
    forall k | 0 <= k < |steps| && kept(states[k])
      ensures kept(states[k + 1])
    {
      StepKeepsInv(w, states[k], steps[k]);
    }
    Along(states, kept, i);
  }

  /** The files of a state offer an unfinished cell. */
  ghost predicate Interrupted(s: State) {
    s.disk.audit.Some? && s.disk.journal.Some? && HasUnfinished(s.disk.audit.value.cells)
  }

  function UnfinishedCell(s: State): Cell
    requires s.disk.audit.Some? && HasUnfinished(s.disk.audit.value.cells)
  {
    s.disk.audit.value.cells[|s.disk.audit.value.cells| - 1]
  }

  /** The plan the unfinished cell belongs to. */
  ghost predicate IsPlanOf(w: Library, s: State, plan: Plan)
    requires s.disk.audit.Some?
  {
    var audit := s.disk.audit.value;
    audit.cells != [] && plan == w(audit.settings, audit.cells[|audit.cells| - 1].workload)
  }

  /** The prefix is the history: the same selections in the same order, each with its journal row. */
  ghost predicate MatchesHistory(prefix: seq<Selection>, log: seq<int>, journal: Journal) {
    && |prefix| == |log|
    && forall k | 0 <= k < |log| ::
         prefix[k].configuration.id == log[k] && log[k] in journal && prefix[k].row == journal[log[k]]
  }

  lemma UnfinishedOk(w: Library, s: State) returns (plan: Plan)
    requires ValidLibrary(w) && Inv(w, s) && Interrupted(s)
    ensures IsPlanOf(w, s, plan) && ValidPlan(plan) && CellOk(plan, UnfinishedCell(s), s.log) && s.log != []
    ensures GoodJournal(s.disk.journal.value)
  {
    var audit := s.disk.audit.value;
    plan := w(audit.settings, UnfinishedCell(s).workload);
  }

  /** In every run from an empty directory, with crashes between any two writes: a prefix that a
      resume recovers from the audit file is exactly the recorded selections in order, without
      repetition, each with its journal row, and obeys the turn discipline. */
  lemma ResumeIsFaithful(w: Library, states: seq<State>, steps: seq<Step>, i: nat, prefix: seq<Selection>)
    returns (plan: Plan)
    requires ValidLibrary(w) && IsRun(w, states, steps) && states[0] == INITIAL && i < |states|
    requires Interrupted(states[i])
    requires RecoveredPrefix(UnfinishedCell(states[i]), states[i].disk.journal.value) == Some(prefix)
    ensures MatchesHistory(prefix, states[i].log, states[i].disk.journal.value)
    ensures IsPlanOf(w, states[i], plan) && Legal(plan, states[i].log) && Distinct(states[i].log)
  {
    var s := states[i];
    RunKeepsInv(w, states, steps, i);
    plan := UnfinishedOk(w, s);
    PrefixIsHistory(plan, UnfinishedCell(s), s.log, s.disk.journal.value, prefix);
    LegalDistinct(plan, s.log);
  }

  // --- what a crash can cost

  /** A restart that neither ignores an existing audit nor finds none. */
  ghost predicate Resuming(s: State, step: Step) {
    step.Start? ==> step.resume || s.disk.audit.None?
  }

  /** All recorded selections but the last have their row in the journal file. */
  ghost predicate Kept(s: State) {
    s.disk.audit.Some? && HasUnfinished(s.disk.audit.value.cells) ==>
      && InJournal(s.disk.journal, s.log, |s.log| - 1)
      && (s.process.Some? && s.disk.journal != Some(s.process.value.retained) ==> |s.log| <= 1)
  }

  /** A step that writes no audit but the journal. */
  lemma JournalWriteKeeps(w: Library, s: State, p: Process, rows: seq<Row>)
    requires Inv(w, s) && s.process.Some? && Kept(s) && GoodRows(rows) && p.retained == s.process.value.retained
    ensures Kept(WriteJournal(s, p, rows))
  {
    SaveFacts(p.retained, rows);
    if s.disk.audit.Some? && HasUnfinished(s.disk.audit.value.cells) {
      forall x | 0 <= x < |s.log| - 1
        ensures s.log[x] in Save(p.retained, rows)
      {
        var id := s.log[x];
        assert id in Names(s.disk.journal);
        assert id in p.retained;
        assert id in Save(p.retained, rows);
      }
    }
  }

  lemma StartKeepsKept(w: Library, s: State, identity: nat, search: Search, resume: bool)
    requires Kept(s) && Enabled(w, s, Start(identity, search, resume)) && (resume || s.disk.audit.None?)
    ensures Kept(Next(w, s, Start(identity, search, resume)))
  {
    if s.disk.journal.None? && |s.log| > 1 {
      assert s.log[0] !in Names(s.disk.journal);
    }
  }

  lemma SaveScreensKeepsKept(w: Library, s: State)
    requires CellReady(w, s, SaveScreens) && Kept(s)
    ensures Kept(Next(w, s, InCell(SaveScreens)))
  {
    var p := s.process.value;
    var a := p.active.value;
    JournalWriteKeeps(w, s, p.(active := Some(a.(stage := Selecting))), p.result + a.screened);
  }

  lemma SettleKeepsKept(w: Library, s: State, row: Row)
    requires CellReady(w, s, Settle(row)) && Kept(s)
    ensures Kept(Next(w, s, InCell(Settle(row))))
  {
    var p := s.process.value;
    var a := p.active.value;
    var result, next := p.result + [row], a.stage.next + 1;
    JournalWriteKeeps(w, s, p.(result := result, active := Some(a.(stage := Settling(next)))),
                      result + a.screened[next..]);
  }

  lemma WritingStepKeepsKept(w: Library, s: State, step: CellStep)
    requires CellReady(w, s, step) && Kept(s) && WritesJournal(step)
    ensures Kept(Next(w, s, InCell(step)))
  {
    var p := s.process.value;
    var a := p.active.value;
    match step
    case Trial(row) => JournalWriteKeeps(w, s, p, [row]);
    case Confirm(row) => JournalWriteKeeps(w, s, p, [row]);
    case SaveScreens => SaveScreensKeepsKept(w, s);
    case Settle(row) => SettleKeepsKept(w, s, row);
    case SaveResult => JournalWriteKeeps(w, s, p.(active := Some(a.(stage := Settled))), p.result);
  }

  lemma InCellKeepsKept(w: Library, s: State, step: CellStep)
    requires CellReady(w, s, step) && Kept(s)
    ensures Kept(Next(w, s, InCell(step)))
  {
    match step
    case Screen(row) => ScreenKeepsKept(w, s, row);
    case CloseCell => CloseKeepsKept(w, s);
    case Choose(_) =>
    case EndScreening(_) =>
    case _ => WritingStepKeepsKept(w, s, step);
  }

  lemma CloseKeepsKept(w: Library, s: State)
    requires CellReady(w, s, CloseCell)
    ensures Kept(Next(w, s, InCell(CloseCell)))
  {
  }

  lemma StepKeepsKept(w: Library, s: State, step: Step)
    requires ValidLibrary(w) && Inv(w, s) && Kept(s) && Enabled(w, s, step) && Resuming(s, step)
    ensures Kept(Next(w, s, step))
  {
    match step
    case Start(identity, search, resume) => StartKeepsKept(w, s, identity, search, resume);
    case InCell(step) => InCellKeepsKept(w, s, step);
    case OpenCell =>
    case Finish =>
    case Crash =>
  }

  lemma ScreenKeepsKept(w: Library, s: State, row: Row)
    requires CellReady(w, s, Screen(row))
    ensures Kept(Next(w, s, InCell(Screen(row))))
  {
  }

  ghost predicate KeptInv(w: Library, s: State) {
    Inv(w, s) && Kept(s)
  }

  lemma RunStepKeepsKept(w: Library, s: State, step: Step, t: State)
    requires ValidLibrary(w) && KeptInv(w, s) && Enabled(w, s, step) && t == Next(w, s, step) && Resuming(s, step)
    ensures KeptInv(w, t)
  {
    StepKeepsInv(w, s, step);
    StepKeepsKept(w, s, step);
  }

  lemma RunKeepsKept(w: Library, states: seq<State>, steps: seq<Step>, i: nat)
    requires ValidLibrary(w) && IsRun(w, states, steps) && i < |states| && states[0] == INITIAL
    requires forall k | 0 <= k < |steps| :: Resuming(states[k], steps[k])
    ensures KeptInv(w, states[i])
  {
    var kept := (s: State) => KeptInv(w, s);
    assert kept(INITIAL);
    forall k | 0 <= k < |steps| && kept(states[k])
      ensures kept(states[k + 1])
    {
      RunStepKeepsKept(w, states[k], steps[k], states[k + 1]);
    }
    Along(states, kept, i);
  }

  /** When every restart resumes, an interrupted cell is recoverable exactly when the row of its
      last selection reached the journal: only a crash between the two writes that follow an
      unsaved measurement costs the prefix. */
  lemma RecoverableUnlessLastRowMissing(w: Library, states: seq<State>, steps: seq<Step>, i: nat)
    requires ValidLibrary(w) && IsRun(w, states, steps) && states[0] == INITIAL && i < |states|
    requires forall k | 0 <= k < |steps| :: Resuming(states[k], steps[k])
    requires Interrupted(states[i])
    ensures var s, log := states[i], states[i].log;
      && log != []
      && (RecoveredPrefix(UnfinishedCell(s), s.disk.journal.value).Some? <==>
          log[|log| - 1] in s.disk.journal.value)
  {
    var s := states[i];
    RunKeepsKept(w, states, steps, i);
    var plan := UnfinishedOk(w, s);
    RecoverableWhenJournaled(plan, UnfinishedCell(s), s.log, s.disk.journal.value);
    forall x | 0 <= x < |s.log| - 1
      ensures s.log[x] in s.disk.journal.value
    {
      assert s.log[x] in Names(s.disk.journal);
    }
  }
}
