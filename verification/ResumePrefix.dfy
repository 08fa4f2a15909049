/** What a restarted search recovers from its two checkpoint files. */
module ResumePrefix {
  import opened Options
  import opened StratifiedOrder

  /** A measured row of the journal; rows are keyed by name, the candidate's identity. `binaries` is a
      history variable: the builds its samples were taken with. */
  datatype Row = Row(name: int, configuration: Option<Point>, correct: bool, binaries: set<nat>)

  /** An entry of a cell's candidate list as it comes back from JSON: anything may be missing
      or of the wrong type. */
  datatype Candidate =
    | NotAnObject
    | Candidate(id: Option<int>, configuration: Option<Point>, selectionIndex: Option<int>)

  /** One workload of the audit file. */
  datatype Cell = Cell(workload: nat, candidates: seq<Candidate>, screened: Option<int>,
                       requested: Option<int>, complete: bool)

  function CandidateId(p: Point): int {
    p.id
  }

  datatype Selection = Selection(configuration: Point, row: Row)

  // ------------------------------------------------------------ specification

  /** The candidate claims turn i. */
  predicate Claims(c: Candidate, i: int) {
    c.Candidate? && c.selectionIndex == Some(i)
  }

  ghost predicate TurnsUnique(candidates: seq<Candidate>) {
    forall j, k, i: int | 0 <= j < k < |candidates| && i >= 0 && Claims(candidates[j], i) ::
      !Claims(candidates[k], i)
  }

  /** The candidate is a consistent record of a selection with its journal row. */
  predicate Persisted(c: Candidate, retained: map<int, Row>) {
    && c.Candidate? && c.id.Some? && c.configuration.Some?
    && CandidateId(c.configuration.value) == c.id.value
    && c.id.value in retained
    && var row := retained[c.id.value];
       row.name == c.id.value && row.configuration.Some? && CandidateId(row.configuration.value) == c.id.value
  }

  ghost predicate TurnPersisted(candidates: seq<Candidate>, i: int, retained: map<int, Row>) {
    exists k :: 0 <= k < |candidates| && Claims(candidates[k], i) && Persisted(candidates[k], retained)
  }

  /** A cell can be continued when every one of its screened turns is recorded once, consistently
      and with its journal row. */
  ghost predicate Recoverable(cell: Cell, retained: map<int, Row>) {
    && !cell.complete
    && cell.screened.Some? && cell.screened.value > 0
    && TurnsUnique(cell.candidates)
    && forall i: int | 0 <= i < cell.screened.value :: TurnPersisted(cell.candidates, i, retained)
  }

  /** The selection that the records hold for turn i. */
  ghost predicate Recovers(cell: Cell, retained: map<int, Row>, i: int, s: Selection) {
    exists k :: 0 <= k < |cell.candidates| &&
      var c := cell.candidates[k];
      && Claims(c, i) && Persisted(c, retained)
      && s == Selection(c.configuration.value, retained[c.id.value])
  }

  ghost predicate IsPrefix(cell: Cell, retained: map<int, Row>, prefix: seq<Selection>) {
    && Recoverable(cell, retained)
    && |prefix| == cell.screened.value
    && forall i | 0 <= i < |prefix| :: Recovers(cell, retained, i, prefix[i])
  }

  lemma PrefixUnique(cell: Cell, retained: map<int, Row>, a: seq<Selection>, b: seq<Selection>)
    requires IsPrefix(cell, retained, a) && IsPrefix(cell, retained, b)
    ensures a == b
  {
  }

  /** The prefix as a value: None, or what the records hold for each turn. */
  ghost function RecoveredPrefix(cell: Cell, retained: map<int, Row>): (r: Option<seq<Selection>>)
    ensures r.Some? <==> Recoverable(cell, retained)
    ensures r.Some? ==> IsPrefix(cell, retained, r.value)
  {
    if Recoverable(cell, retained) then Some(PrefixUpTo(cell, retained, cell.screened.value)) else None
  }

  ghost function PrefixUpTo(cell: Cell, retained: map<int, Row>, n: nat): (r: seq<Selection>)
    requires Recoverable(cell, retained) && n <= cell.screened.value
    ensures |r| == n && forall i | 0 <= i < n :: Recovers(cell, retained, i, r[i])
  {
    if n == 0 then []
    else
      assert TurnPersisted(cell.candidates, n - 1, retained);
      var k :| 0 <= k < |cell.candidates| && Claims(cell.candidates[k], n - 1)
               && Persisted(cell.candidates[k], retained);
      var c := cell.candidates[k];
      PrefixUpTo(cell, retained, n - 1) + [Selection(c.configuration.value, retained[c.id.value])]
  }

  // ----------------------------------------------------------- implementation

  /** The first loop: candidates by selection index, or None when two claim the same turn. */
  method IndexTurns(candidates: seq<Candidate>) returns (indexed: Option<map<int, Candidate>>)
    ensures indexed.Some? <==> TurnsUnique(candidates)
    ensures indexed.Some? ==> forall i: int, c ::
              i in indexed.value && indexed.value[i] == c <==> i >= 0 && c in candidates && Claims(c, i)
  {
    var turns: map<int, Candidate> := map[];
    for j := 0 to |candidates|
      invariant TurnsUnique(candidates[..j])
      invariant forall i: int :: i in turns ==> i >= 0 && turns[i] in candidates[..j] && Claims(turns[i], i)
      invariant forall i: int, k | i >= 0 && 0 <= k < j && Claims(candidates[k], i) ::
                  i in turns && turns[i] == candidates[k]
    {
      var c := candidates[j];
      assert candidates[..j + 1] == candidates[..j] + [c];
      if !c.Candidate? || c.selectionIndex.None? || c.selectionIndex.value < 0 {
        continue;
      }
      var turn := c.selectionIndex.value;
      if turn in turns {
        var k :| 0 <= k < j && candidates[k] == turns[turn];
        assert Claims(candidates[k], turn) && Claims(candidates[j], turn);
        return None;
      }
      turns := turns[turn := c];
    }
    assert candidates[..|candidates|] == candidates;
    return Some(turns);
  }

  method ResumeSelectionPrefix(cell: Cell, retained: map<int, Row>) returns (r: Option<seq<Selection>>)
    ensures r == RecoveredPrefix(cell, retained)
  {
    if cell.complete || cell.screened.None? || cell.screened.value <= 0 {
      return None;
    }
    var indexed := IndexTurns(cell.candidates);
    if indexed.None? {
      return None;
    }
    var prefix: seq<Selection> := [];
    for i := 0 to cell.screened.value
      invariant |prefix| == i
      invariant forall j: int | 0 <= j < i :: TurnPersisted(cell.candidates, j, retained)
      invariant forall j: int | 0 <= j < i :: Recovers(cell, retained, j, prefix[j])
    {
      if i !in indexed.value || !Persisted(indexed.value[i], retained) {
        NotPersisted(cell.candidates, indexed.value, i, retained);
        return None;
      }
      var c := indexed.value[i];
      assert c in cell.candidates;
      prefix := prefix + [Selection(c.configuration.value, retained[c.id.value])];
    }
    ghost var spec := RecoveredPrefix(cell, retained);
    PrefixUnique(cell, retained, prefix, spec.value);
    return Some(prefix);
  }

  lemma NotPersisted(candidates: seq<Candidate>, indexed: map<int, Candidate>, i: nat, retained: map<int, Row>)
    requires forall c :: i in indexed && indexed[i] == c <==> c in candidates && Claims(c, i)
    requires i !in indexed || !Persisted(indexed[i], retained)
    ensures !TurnPersisted(candidates, i, retained)
  {
  }

  /** Entry k of the list records selection i with its journal row. */
  ghost predicate RecordsTurn(cell: Cell, retained: map<int, Row>, i: int, k: nat) {
    && k < |cell.candidates| && cell.candidates[k].Candidate?
    && var c := cell.candidates[k];
       && c.selectionIndex == Some(i) && c.id.Some? && c.configuration.Some? && c.configuration.value.id == c.id.value
       && c.id.value in retained && retained[c.id.value].name == c.id.value
       && retained[c.id.value].configuration.Some? && retained[c.id.value].configuration.value.id == c.id.value
  }

  ghost predicate Unrecorded(cell: Cell, retained: map<int, Row>, i: int) {
    forall k: nat :: !RecordsTurn(cell, retained, i, k)
  }

  /** Two entries claim the same selection. */
  ghost predicate ClaimedTwice(cell: Cell) {
    exists j, k :: 0 <= j < k < |cell.candidates|
      && cell.candidates[j].Candidate? && cell.candidates[k].Candidate? && cell.candidates[j].selectionIndex.Some?
      && cell.candidates[j].selectionIndex.value >= 0
      && cell.candidates[j].selectionIndex == cell.candidates[k].selectionIndex
  }

  /** What recovery answers, entry by entry. */
  lemma RecoveryMeans(cell: Cell, retained: map<int, Row>)
    ensures RecoveredPrefix(cell, retained).None? <==>
      || cell.complete || cell.screened.None? || cell.screened.value <= 0 || ClaimedTwice(cell)
      || exists i: int :: 0 <= i < cell.screened.value && Unrecorded(cell, retained, i)
    ensures RecoveredPrefix(cell, retained).Some? ==>
      var prefix := RecoveredPrefix(cell, retained).value;
      && |prefix| == cell.screened.value
      && forall i: nat, k: nat | i < |prefix| && RecordsTurn(cell, retained, i, k) ::
           prefix[i] == Selection(cell.candidates[k].configuration.value, retained[cell.candidates[k].id.value])
  {
    UniqueMeans(cell);
    forall i: int
      ensures TurnPersisted(cell.candidates, i, retained) <==> !Unrecorded(cell, retained, i)
    {
      if TurnPersisted(cell.candidates, i, retained) {
        var k :| 0 <= k < |cell.candidates| && Claims(cell.candidates[k], i) && Persisted(cell.candidates[k], retained);
        assert RecordsTurn(cell, retained, i, k);
      }
    }
  }

  lemma UniqueMeans(cell: Cell)
    ensures TurnsUnique(cell.candidates) <==> !ClaimedTwice(cell)
  {
    if !TurnsUnique(cell.candidates) {
      var j, k, i: int :| 0 <= j < k < |cell.candidates| && i >= 0
        && Claims(cell.candidates[j], i) && Claims(cell.candidates[k], i);
    }
    if ClaimedTwice(cell) {
      var j, k :| 0 <= j < k < |cell.candidates|
        && cell.candidates[j].Candidate? && cell.candidates[k].Candidate? && cell.candidates[j].selectionIndex.Some?
        && cell.candidates[j].selectionIndex.value >= 0
        && cell.candidates[j].selectionIndex == cell.candidates[k].selectionIndex;
      assert Claims(cell.candidates[j], cell.candidates[j].selectionIndex.value);
      assert Claims(cell.candidates[k], cell.candidates[j].selectionIndex.value);
    }
  }
}
