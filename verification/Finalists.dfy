/** Which screened candidates are confirmed with the full number of trials. */
module Finalists {
  import opened Numbers
  import opened Sets
  import opened Sorting
  import opened Options

  /** A screened row; `sample` is its first sample, None when the row has none. */
  datatype Screened = Screened(name: int, correct: bool, latency: real, sample: Option<int>)

  /** A resolved design identity, or the fallback for a row without a sample. */
  datatype Key = Design(design: int) | IncompleteScreen(name: int)

  /** design_point_key is an arbitrary function of the name and the sample. */
  type DesignKey = (int, int) -> int

  function KeyOf(design: DesignKey, row: Screened): Key {
    if row.sample.Some? then Design(design(row.name, row.sample.value)) else IncompleteScreen(row.name)
  }

  function Correct(rows: seq<Screened>): seq<Screened> {
    if rows == [] then []
    else (if rows[0].correct then [rows[0]] else []) + Correct(rows[1..])
  }

  lemma {:induction false} CorrectMembers(rows: seq<Screened>)
    ensures forall r :: r in Correct(rows) <==> r in rows && r.correct
  {
    if rows != [] {
      CorrectMembers(rows[1..]);
      assert rows == [rows[0]] + rows[1..];
    }
  }

  /** The keys of the rows. */
  function Keys(design: DesignKey, rows: seq<Screened>): set<Key> {
    set r | r in rows :: KeyOf(design, r)
  }

  ghost predicate DistinctKeys(design: DesignKey, rows: seq<Screened>) {
    forall i, j | 0 <= i < j < |rows| :: KeyOf(design, rows[i]) != KeyOf(design, rows[j])
  }

  ghost predicate DistinctNames(rows: seq<Screened>) {
    forall i, j | 0 <= i < j < |rows| :: rows[i].name != rows[j].name
  }

  function ByLatency(): (Screened, Screened) -> bool {
    (a: Screened, b: Screened) => a.latency <= b.latency
  }

  lemma KeysGrow(design: DesignKey, rows: seq<Screened>, r: Screened)
    ensures Keys(design, rows + [r]) == Keys(design, rows) + {KeyOf(design, r)}
  {
  }

  /** Some chosen row stands no later than k and has its key. */
  ghost predicate Represented(design: DesignKey, valid: seq<Screened>, places: seq<nat>, k: nat)
    requires k < |valid|
  {
    exists i :: 0 <= i < |places| && places[i] <= k && KeyOf(design, valid[places[i]]) == KeyOf(design, valid[k])
  }

  /** The chosen rows are the first of their keys among the fastest rows; `places` says where they stand. */
  ghost predicate FirstOfKeys(design: DesignKey, valid: seq<Screened>, done: nat, chosen: seq<Screened>,
                              places: seq<nat>)
  {
    && done <= |valid| && |places| == |chosen|
    && (forall i, j | 0 <= i < j < |places| :: places[i] < places[j])
    && (forall i | 0 <= i < |places| :: places[i] < done && chosen[i] == valid[places[i]])
    && DistinctKeys(design, chosen)
    && (forall k: nat | k < done :: Represented(design, valid, places, k))
  }

  lemma SkipRow(design: DesignKey, valid: seq<Screened>, done: nat, chosen: seq<Screened>, places: seq<nat>)
    requires FirstOfKeys(design, valid, done, chosen, places) && done < |valid|
    requires KeyOf(design, valid[done]) in Keys(design, chosen)
    ensures FirstOfKeys(design, valid, done + 1, chosen, places)
  {
    var c :| c in chosen && KeyOf(design, c) == KeyOf(design, valid[done]);
    var i :| 0 <= i < |chosen| && chosen[i] == c;
    assert places[i] <= done;
  }

  lemma AddRow(design: DesignKey, valid: seq<Screened>, done: nat, chosen: seq<Screened>, places: seq<nat>)
    requires FirstOfKeys(design, valid, done, chosen, places) && done < |valid|
    requires KeyOf(design, valid[done]) !in Keys(design, chosen)
    ensures FirstOfKeys(design, valid, done + 1, chosen + [valid[done]], places + [done])
  {
    var next := places + [done];
    forall k: nat | k < done + 1
      ensures Represented(design, valid, next, k)
    {
      if k < done {
        assert Represented(design, valid, places, k);
        var i :| 0 <= i < |places| && places[i] <= k && KeyOf(design, valid[places[i]]) == KeyOf(design, valid[k]);
        assert next[i] == places[i];
      } else {
        assert next[|places|] == done;
      }
    }
    forall i | 0 <= i < |chosen|
      ensures KeyOf(design, chosen[i]) != KeyOf(design, valid[done])
    {
      assert chosen[i] in chosen;
    }
  }

  /** a is faster than b, or as fast and screened before it. */
  ghost predicate Ahead(screened: seq<Screened>, a: Screened, b: Screened) {
    a.latency < b.latency || (a.latency == b.latency && StoodBefore(screened, a, b))
  }

  /** Two rows of one design point: their samples resolve to the same design, or both have none and they carry
      one name. */
  predicate SameDesign(design: DesignKey, a: Screened, b: Screened) {
    match (a.sample, b.sample)
    case (Some(x), Some(y)) => design(a.name, x) == design(b.name, y)
    case (None, None) => a.name == b.name
    case _ => false
  }

  lemma KeyMeans(design: DesignKey, a: Screened, b: Screened)
    ensures KeyOf(design, a) == KeyOf(design, b) <==> SameDesign(design, a, b)
  {
  }

  /** What the chosen rows are: in the order of speed, each the first correct row of its design point, and
      ahead of every correct row whose design point is left out, which happens only at the limit. */
  ghost predicate BestOfDistinctDesigns(
    design: DesignKey, screened: seq<Screened>, limit: nat, chosen: seq<Screened>)
  {
    && |chosen| <= limit
    && (forall c | c in chosen :: c in screened && c.correct)
    && (forall i, j | 0 <= i < j < |chosen| ::
          Ahead(screened, chosen[i], chosen[j]) && !SameDesign(design, chosen[i], chosen[j]))
    && LeadTheirDesigns(design, screened, chosen)
    && OthersFollow(design, screened, limit, chosen)
  }

  /** A chosen row is ahead of every other correct row of its design point. */
  ghost predicate LeadTheirDesigns(design: DesignKey, screened: seq<Screened>, chosen: seq<Screened>) {
    forall c, r | c in chosen && r in screened && r.correct && r != c && SameDesign(design, c, r) ::
      Ahead(screened, c, r)
  }

  /** Every correct row shares a chosen one's design point, or comes behind all of them at the limit. */
  ghost predicate OthersFollow(design: DesignKey, screened: seq<Screened>, limit: nat, chosen: seq<Screened>) {
    forall r | r in screened && r.correct ::
      || (exists c :: c in chosen && SameDesign(design, c, r))
      || (|chosen| == limit && forall c | c in chosen :: Ahead(screened, c, r))
  }

  /** What stands earlier among the sorted correct rows is ahead. */
  ghost predicate InOrder(screened: seq<Screened>, valid: seq<Screened>) {
    forall i, j | 0 <= i < j < |valid| :: Ahead(screened, valid[i], valid[j])
  }

  lemma ChosenInOrder(design: DesignKey, screened: seq<Screened>, valid: seq<Screened>, done: nat,
                      chosen: seq<Screened>, places: seq<nat>)
    requires FirstOfKeys(design, valid, done, chosen, places) && InOrder(screened, valid)
    ensures forall i, j | 0 <= i < j < |chosen| ::
              Ahead(screened, chosen[i], chosen[j]) && !SameDesign(design, chosen[i], chosen[j])
  {
    forall i, j | 0 <= i < j < |chosen|
      ensures Ahead(screened, chosen[i], chosen[j]) && !SameDesign(design, chosen[i], chosen[j])
    {
      KeyMeans(design, chosen[i], chosen[j]);
      assert places[i] < places[j];
    }
  }

  /** How a chosen row stands to any other correct row. */
  lemma ChosenAgainst(design: DesignKey, screened: seq<Screened>, valid: seq<Screened>, done: nat,
                      chosen: seq<Screened>, places: seq<nat>, i: nat, k: nat)
    requires FirstOfKeys(design, valid, done, chosen, places) && InOrder(screened, valid)
    requires i < |chosen| && k < |valid|
    ensures k >= done ==> Ahead(screened, chosen[i], valid[k])
    ensures valid[k] != chosen[i] && SameDesign(design, chosen[i], valid[k]) ==> Ahead(screened, chosen[i], valid[k])
  {
    KeyMeans(design, chosen[i], valid[k]);
    if k < done && KeyOf(design, chosen[i]) == KeyOf(design, valid[k]) {
      assert Represented(design, valid, places, k);
      var l :| 0 <= l < |places| && places[l] <= k && KeyOf(design, valid[places[l]]) == KeyOf(design, valid[k]);
      SameKeySamePlace(design, chosen, l, i);
    }
  }

  lemma SameKeySamePlace(design: DesignKey, chosen: seq<Screened>, l: nat, i: nat)
    requires DistinctKeys(design, chosen) && l < |chosen| && i < |chosen|
    requires KeyOf(design, chosen[l]) == KeyOf(design, chosen[i])
    ensures l == i
  {
  }

  /** Rows already seen have a chosen row of their design. */
  lemma SeenIsRepresented(design: DesignKey, valid: seq<Screened>, done: nat, chosen: seq<Screened>,
                          places: seq<nat>, k: nat)
    requires FirstOfKeys(design, valid, done, chosen, places) && k < done
    ensures exists c :: c in chosen && SameDesign(design, c, valid[k])
  {
    assert Represented(design, valid, places, k);
    var i :| 0 <= i < |places| && places[i] <= k && KeyOf(design, valid[places[i]]) == KeyOf(design, valid[k]);
    KeyMeans(design, chosen[i], valid[k]);
    assert chosen[i] in chosen;
  }

  function AtLeastOne(limit: nat): nat {
    if limit == 0 then 1 else limit
  }

  function NamesOf(rows: seq<Screened>): set<int> {
    if rows == [] then {} else NamesOf(rows[..|rows| - 1]) + {rows[|rows| - 1].name}
  }

  lemma {:induction false} NamesMembers(rows: seq<Screened>, n: int)
    ensures n in NamesOf(rows) <==> exists r :: r in rows && r.name == n
  {
    if rows != [] {
      var init := rows[..|rows| - 1];
      NamesMembers(init, n);
      assert rows == init + [rows[|rows| - 1]];
      if exists r :: r in init && r.name == n {
        var r :| r in init && r.name == n;
        assert r in rows;
      }
      assert rows[|rows| - 1] in rows;
    }
  }

  lemma NamesAre(rows: seq<Screened>)
    ensures forall n: int :: n in NamesOf(rows) <==> exists r :: r in rows && r.name == n
  {
    forall n: int
      ensures n in NamesOf(rows) <==> exists r :: r in rows && r.name == n
    {
      NamesMembers(rows, n);
    }
  }

  /** What holds between rows of the loop. */
  ghost predicate Choosing(design: DesignKey, valid: seq<Screened>, done: nat, chosen: seq<Screened>,
                           places: seq<nat>, seen: set<Key>, finalists: set<int>) {
    && FirstOfKeys(design, valid, done, chosen, places)
    && seen == Keys(design, chosen)
    && finalists == NamesOf(chosen) && |finalists| == |chosen|
  }

  lemma TakeRow(design: DesignKey, valid: seq<Screened>, i: nat, chosen: seq<Screened>, places: seq<nat>,
                seen: set<Key>, finalists: set<int>)
    requires Choosing(design, valid, i, chosen, places, seen, finalists) && i < |valid| && DistinctNames(valid)
    ensures KeyOf(design, valid[i]) in seen ==> Choosing(design, valid, i + 1, chosen, places, seen, finalists)
    ensures KeyOf(design, valid[i]) !in seen ==>
      Choosing(design, valid, i + 1, chosen + [valid[i]], places + [i], seen + {KeyOf(design, valid[i])},
               finalists + {valid[i].name})
  {
    var row := valid[i];
    if KeyOf(design, row) in seen {
      SkipRow(design, valid, i, chosen, places);
    } else {
      AddRow(design, valid, i, chosen, places);
      KeysGrow(design, chosen, row);
      NameIsNew(valid, i, chosen, places);
      AddOne(NamesOf(chosen), row.name);
      NamesGrow(chosen, row);
    }
  }

  lemma NameIsNew(valid: seq<Screened>, i: nat, chosen: seq<Screened>, places: seq<nat>)
    requires i < |valid| && DistinctNames(valid) && |places| == |chosen|
    requires forall a | 0 <= a < |places| :: places[a] < i && chosen[a] == valid[places[a]]
    ensures valid[i].name !in NamesOf(chosen)
  {
    NamesMembers(chosen, valid[i].name);
    forall c | c in chosen
      ensures c.name != valid[i].name
    {
      var a :| 0 <= a < |chosen| && chosen[a] == c;
      assert places[a] < i;
    }
  }

  lemma NamesGrow(rows: seq<Screened>, row: Screened)
    ensures NamesOf(rows + [row]) == NamesOf(rows) + {row.name}
  {
  }

  /** Their number in one formula. */
  lemma LastKeyIsNew(design: DesignKey, init: seq<Screened>, last: Screened)
    requires DistinctKeys(design, init + [last])
    ensures KeyOf(design, last) !in Keys(design, init) && DistinctKeys(design, init)
  {
    var all := init + [last];
    assert all[|init|] == last && forall i | 0 <= i < |init| :: all[i] == init[i];
  }

  lemma {:induction false} KeysCount(design: DesignKey, rows: seq<Screened>)
    requires DistinctKeys(design, rows)
    ensures |Keys(design, rows)| == |rows|
  {
    if rows == [] {
      assert Keys(design, rows) == {};
    } else {
      var init, last := rows[..|rows| - 1], rows[|rows| - 1];
      assert rows == init + [last];
      LastKeyIsNew(design, init, last);
      KeysCount(design, init);
      AddOne(Keys(design, init), KeyOf(design, last));
      KeysGrow(design, init, last);
    }
  }

  function CorrectDesigns(design: DesignKey, screened: seq<Screened>): set<Key> {
    set r | r in screened && r.correct :: KeyOf(design, r)
  }

  lemma ChosenAreCorrect(design: DesignKey, screened: seq<Screened>, chosen: seq<Screened>)
    requires forall c | c in chosen :: c in screened && c.correct
    ensures Keys(design, chosen) <= CorrectDesigns(design, screened)
  {
  }

  lemma AllChosen(design: DesignKey, screened: seq<Screened>, valid: seq<Screened>, chosen: seq<Screened>,
                  places: seq<nat>)
    requires FirstOfKeys(design, valid, |valid|, chosen, places)
    requires forall r | r in screened && r.correct :: r in valid
    ensures CorrectDesigns(design, screened) <= Keys(design, chosen)
  {
    forall r | r in screened && r.correct
      ensures KeyOf(design, r) in Keys(design, chosen)
    {
      var k: nat :| k < |valid| && valid[k] == r;
      assert Represented(design, valid, places, k);
      var i :| 0 <= i < |places| && places[i] <= k && KeyOf(design, valid[places[i]]) == KeyOf(design, valid[k]);
      assert chosen[i] in chosen;
    }
  }

  lemma SizeUpTo(a: set<Key>, b: set<Key>, limit: nat)
    requires a <= b && |a| <= limit && (|a| < limit ==> b <= a)
    ensures |a| == Min(limit, |b|)
  {
    SubsetSize(a, b);
    if |a| < limit {
      SubsetSize(b, a);
    }
  }

  lemma ChosenNumber(design: DesignKey, screened: seq<Screened>, valid: seq<Screened>, done: nat,
                     chosen: seq<Screened>, places: seq<nat>, limit: nat)
    requires FirstOfKeys(design, valid, done, chosen, places)
    requires forall r :: r in valid <==> r in screened && r.correct
    requires |chosen| <= limit && (|chosen| < limit ==> done == |valid|)
    ensures |chosen| == Min(limit, |CorrectDesigns(design, screened)|)
  {
    KeysCount(design, chosen);
    ChosenAreCorrectRows(design, screened, valid, done, chosen, places);
    ChosenAreCorrect(design, screened, chosen);
    if |chosen| < limit {
      AllChosen(design, screened, valid, chosen, places);
    }
    SizeUpTo(Keys(design, chosen), CorrectDesigns(design, screened), limit);
  }

  lemma FirstOfDesign(design: DesignKey, screened: seq<Screened>, valid: seq<Screened>, done: nat,
                      chosen: seq<Screened>, places: seq<nat>, c: Screened, r: Screened)
    requires FirstOfKeys(design, valid, done, chosen, places) && InOrder(screened, valid)
    requires c in chosen && r in valid && r != c && SameDesign(design, c, r)
    ensures Ahead(screened, c, r)
  {
    var i :| 0 <= i < |chosen| && chosen[i] == c;
    var k :| 0 <= k < |valid| && valid[k] == r;
    ChosenAgainst(design, screened, valid, done, chosen, places, i, k);
  }

  lemma ChosenOrBehind(design: DesignKey, screened: seq<Screened>, valid: seq<Screened>, done: nat,
                       chosen: seq<Screened>, places: seq<nat>, r: Screened)
    requires FirstOfKeys(design, valid, done, chosen, places) && InOrder(screened, valid) && r in valid
    ensures || (exists c :: c in chosen && SameDesign(design, c, r))
            || (done < |valid| && forall c | c in chosen :: Ahead(screened, c, r))
  {
    var k: nat :| k < |valid| && valid[k] == r;
    if k < done {
      SeenIsRepresented(design, valid, done, chosen, places, k);
    } else {
      forall c | c in chosen
        ensures Ahead(screened, c, r)
      {
        var i :| 0 <= i < |chosen| && chosen[i] == c;
        ChosenAgainst(design, screened, valid, done, chosen, places, i, k);
      }
    }
  }

  lemma ChosenAreCorrectRows(design: DesignKey, screened: seq<Screened>, valid: seq<Screened>, done: nat,
                             chosen: seq<Screened>, places: seq<nat>)
    requires FirstOfKeys(design, valid, done, chosen, places)
    requires forall r :: r in valid <==> r in screened && r.correct
    ensures forall c | c in chosen :: c in screened && c.correct
  {
    forall c | c in chosen
      ensures c in screened && c.correct
    {
      var i :| 0 <= i < |chosen| && chosen[i] == c;
      assert valid[places[i]] in valid;
    }
  }

  lemma ChosenLead(design: DesignKey, screened: seq<Screened>, valid: seq<Screened>, done: nat,
                   chosen: seq<Screened>, places: seq<nat>)
    requires FirstOfKeys(design, valid, done, chosen, places) && InOrder(screened, valid)
    requires forall r :: r in valid <==> r in screened && r.correct
    ensures LeadTheirDesigns(design, screened, chosen)
  {
    forall c, r | c in chosen && r in screened && r.correct && r != c && SameDesign(design, c, r)
      ensures Ahead(screened, c, r)
    {
      FirstOfDesign(design, screened, valid, done, chosen, places, c, r);
    }
  }

  lemma OthersBehind(design: DesignKey, screened: seq<Screened>, valid: seq<Screened>, done: nat,
                     chosen: seq<Screened>, places: seq<nat>, limit: nat)
    requires FirstOfKeys(design, valid, done, chosen, places) && InOrder(screened, valid)
    requires forall r :: r in valid <==> r in screened && r.correct
    requires |chosen| < limit ==> done == |valid|
    requires |chosen| <= limit
    ensures OthersFollow(design, screened, limit, chosen)
  {
    forall r | r in screened && r.correct
      ensures || (exists c :: c in chosen && SameDesign(design, c, r))
              || (|chosen| == limit && forall c | c in chosen :: Ahead(screened, c, r))
    {
      ChosenOrBehind(design, screened, valid, done, chosen, places, r);
    }
  }

  lemma FinishChoosing(design: DesignKey, screened: seq<Screened>, valid: seq<Screened>, done: nat,
                       chosen: seq<Screened>, places: seq<nat>, limit: nat)
    requires FirstOfKeys(design, valid, done, chosen, places) && InOrder(screened, valid)
    requires forall r :: r in valid <==> r in screened && r.correct
    requires |chosen| <= limit && (|chosen| < limit ==> done == |valid|)
    ensures BestOfDistinctDesigns(design, screened, limit, chosen)
  {
    ChosenAreCorrectRows(design, screened, valid, done, chosen, places);
    ChosenInOrder(design, screened, valid, done, chosen, places);
    ChosenLead(design, screened, valid, done, chosen, places);
    OthersBehind(design, screened, valid, done, chosen, places, limit);
  }

  lemma {:induction false} CorrectKeepsOrder(rows: seq<Screened>, x: Screened, y: Screened)
    requires StoodBefore(Correct(rows), x, y)
    ensures StoodBefore(rows, x, y)
  {
    var rest, all := rows[1..], Correct(rows);
    var a, b :| 0 <= a < b < |all| && all[a] == x && all[b] == y;
    if rows[0].correct && a == 0 {
      assert y == Correct(rest)[b - 1];
      CorrectMembers(rest);
      assert y in rest;
      var k :| 0 <= k < |rest| && rest[k] == y;
      assert rows[0] == x && rows[k + 1] == y;
    } else {
      var d := if rows[0].correct then 1 else 0;
      assert Correct(rest)[a - d] == x && Correct(rest)[b - d] == y;
      CorrectKeepsOrder(rest, x, y);
      StoodBeforeInRest(rows, x, y);
    }
  }

  lemma ByLatencyIsPreorder()
    ensures TotalPreorder(ByLatency())
  {
  }

  lemma SortedAhead(screened: seq<Screened>, i: nat, j: nat)
    requires i < j < |SortBy(Correct(screened), ByLatency())|
    ensures var valid := SortBy(Correct(screened), ByLatency()); Ahead(screened, valid[i], valid[j])
  {
    var valid := SortBy(Correct(screened), ByLatency());
    ByLatencyIsPreorder();
    SortFacts(Correct(screened), ByLatency());
    assert ByLatency()(valid[i], valid[j]);
    if valid[i].latency == valid[j].latency {
      SortIsStable(Correct(screened), ByLatency(), i, j);
      CorrectKeepsOrder(screened, valid[i], valid[j]);
    }
  }

  lemma ValidRows(screened: seq<Screened>, valid: seq<Screened>)
    requires valid == SortBy(Correct(screened), ByLatency()) && DistinctNames(screened)
    ensures InOrder(screened, valid) && DistinctNames(valid)
    ensures forall r :: r in valid <==> r in screened && r.correct
  {
    ByLatencyIsPreorder();
    SortFacts(Correct(screened), ByLatency());
    PermutationSize(valid, Correct(screened));
    CorrectMembers(screened);
    CorrectDistinct(screened);
    DistinctPermutation(Correct(screened), valid);
    forall i, j | 0 <= i < j < |valid|
      ensures valid[i].name != valid[j].name && Ahead(screened, valid[i], valid[j])
    {
      assert valid[i] in valid && valid[j] in valid && valid[i] != valid[j];
      var x :| 0 <= x < |screened| && screened[x] == valid[i];
      var y :| 0 <= y < |screened| && screened[y] == valid[j];
      SortedAhead(screened, i, j);
    }
  }

  lemma {:induction false} CorrectDistinct(rows: seq<Screened>)
    requires DistinctNames(rows)
    ensures Distinct(Correct(rows))
  {
    if rows != [] {
      CorrectDistinct(rows[1..]);
      CorrectMembers(rows[1..]);
      assert rows[0] !in rows[1..];
    }
  }

  /** The selection loop over the sorted correct rows. */
  method SelectRows(design: DesignKey, valid: seq<Screened>, limit: nat)
    returns (finalists: set<int>, chosen: seq<Screened>, ghost done: nat, ghost places: seq<nat>)
    requires DistinctNames(valid)
    ensures FirstOfKeys(design, valid, done, chosen, places)
    ensures |chosen| <= AtLeastOne(limit) && (|chosen| < AtLeastOne(limit) ==> done == |valid|)
    ensures finalists == NamesOf(chosen) && |finalists| == |chosen|
  {
    finalists, chosen, places := {}, [], [];
    var seen: set<Key> := {};
    var i := 0;
    while i < |valid|
      invariant i <= |valid| && Choosing(design, valid, i, chosen, places, seen, finalists)
      invariant |chosen| < AtLeastOne(limit)
    {
      var row := valid[i];
      var key := KeyOf(design, row);
      TakeRow(design, valid, i, chosen, places, seen, finalists);
      i := i + 1;
      if key in seen {
        continue;
      }
      places := places + [i - 1];
      seen := seen + {key};
      finalists := finalists + {row.name};
      chosen := chosen + [row];
      if |finalists| >= limit {
        break;
      }
    }
    done := i;
  }

  lemma ValidNames(screened: seq<Screened>, valid: seq<Screened>)
    requires valid == SortBy(Correct(screened), ByLatency()) && DistinctNames(screened)
    ensures DistinctNames(valid)
  {
    ValidRows(screened, valid);
  }

  lemma ChoiceMeans(design: DesignKey, screened: seq<Screened>, valid: seq<Screened>, done: nat,
                    chosen: seq<Screened>, places: seq<nat>, limit: nat)
    requires valid == SortBy(Correct(screened), ByLatency()) && DistinctNames(screened)
    requires FirstOfKeys(design, valid, done, chosen, places)
    requires |chosen| <= limit && (|chosen| < limit ==> done == |valid|)
    ensures BestOfDistinctDesigns(design, screened, limit, chosen)
    ensures |chosen| == Min(limit, |CorrectDesigns(design, screened)|)
  {
    ValidRows(screened, valid);
    ChosenNumber(design, screened, valid, done, chosen, places, limit);
    FinishChoosing(design, screened, valid, done, chosen, places, limit);
  }

  /** The finalists: as many as there are distinct correct design points, up to the limit; a limit of 0, which
      the command line refuses, acts as 1. */
  method ChooseFinalists(design: DesignKey, screened: seq<Screened>, limit: nat)
    returns (finalists: set<int>, chosen: seq<Screened>)
    requires DistinctNames(screened)
    ensures BestOfDistinctDesigns(design, screened, if limit == 0 then 1 else limit, chosen)
    ensures |chosen| == Min(if limit == 0 then 1 else limit, |CorrectDesigns(design, screened)|)
    ensures |finalists| == |chosen| && forall n: int :: n in finalists <==> exists c :: c in chosen && c.name == n
  {
    var valid := SortBy(Correct(screened), ByLatency());
    ValidNames(screened, valid);
    ghost var done: nat, places: seq<nat>;
    finalists, chosen, done, places := SelectRows(design, valid, limit);
    ChoiceMeans(design, screened, valid, done, chosen, places, if limit == 0 then 1 else limit);
    NamesAre(chosen);
  }
}
