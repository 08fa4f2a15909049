# cuButterfly host logic, verified

A Dafny model of the host-side logic of cuButterfly: the rules that decide which
number-theoretic transforms exist, the order in which design points are screened, the
checkpointed search that may crash and resume, the lowering of a multi-factor transform into a
chain of launches, the checker that reads such a chain back from a GPU trace, and the exact
algorithms around them. The GPU kernels themselves are abstract.

`dafny verify dfyconfig.toml` checks the whole project (Dafny 4.11).

| file | content |
|---|---|
| `NumberTheory.dfy`, `Primality.dfy`, `ModulusRules.dfy`, `AcceptedModulus.dfy` | Fermat, Euclid, square roots of 1; the strong pseudoprime test, the modulus search; root availability with the polynomial root bound, cosets; accepted moduli that must be prime |
| `GreedyCoverage.dfy`, `GreedyMeaning.dfy`, `StratifiedOrder.dfy`, `OrderMeaning.dfy` | the greedy order of strata and its coverage; the stratified screening order; what both orders are, entry against entry |
| `ResumePrefix.dfy`, `Screening.dfy`, `Finalists.dfy` | recovery from checkpoints; the turns of a cell; the finalists |
| `SearchRuns.dfy`, `JournalGrowth.dfy`, `CellSurvival.dfy`, `SearchGuarantees.dfy`, `RowProvenance.dfy`, `Resumption.dfy`, `SearchResults.dfy` | the crash/restart protocol; which restarts keep journaled rows; which keep finished cells; what whole runs promise; whose rows the journal holds; how an opened cell follows from the files; what the writes hold and a search returns |
| `FactorPartition.dfy`, `LaunchChain.dfy`, `LaunchMeaning.dfy`, `LaunchRange.dfy` | accepted factor lists; the launch chain over a double-buffered workspace; what a launch reports and leaves behind; the 64-bit tile-range check |
| `KernelName.dfy`, `NameMeaning.dfy`, `FactorTrace.dfy`, `IntervalOverlap.dfy`, `TraceWitness.dfy`, `TraceMeaning.dfy` | kernel names printed, demangled and parsed; what reading a name answers; the dependency checker; the overlap sweep; an accepted trace whose overlap is overstated; which traces are accepted and what a report says of the launches |
| `BitReversal.dfy`, `MeasuredPoints.dfy`, `PiecewiseSelector.dfy`, `RankValues.dfy` | the two reference reorderings; the measured shapes; the abstaining selector built from them; tie-averaged ranks |
| `Sets.dfy`, `Sorting.dfy`, `Options.dfy`, `Numbers.dfy` | shared facts about sets, stable sorting, counting; word sizes |

## How the source is represented

* **Integers.** Python's integers are unbounded. Where C++ uses 32- or 64-bit words the width is
  written out: `BitReversal.ShiftIn` reduces modulo the word, `LaunchRange.U64` lets Dafny check
  every operation for overflow, and `LaunchChain.Extent` reduces modulo 2^64.
* **Design points.** `candidate_id` is injective and its strings are only compared, so a
  point carries its identity and its stratum keys as integers in the order of the original's
  strings and tuples. A kernel group, a design key, a cost model's preference and the outcome of
  a measurement are arbitrary.
* **Search runs.** `SearchRuns.Next` performs at most one atomic checkpoint write a step and `Crash`
  may come between any two steps, so a run is any interleaving of processes, crashes and restarts.
  `Active.picked`, `Process.history`, `State.log` and `Row.binaries` are history variables: no step reads them
  except to extend or carry them.
* **Loops** that update variables are methods with invariants; the search loop of one cell
  is the class `Screening.CellSearch`, the launches work in place on an array.

## What turned out different from the documentation

* `_resume_selection_prefix` says that `screened` advances only after the measurement is persisted
  (`scripts/calibrate_local_hardware.py:214-217`). The code writes the audit first and the journal
  after it (lines 667-670), and a failed measurement is not journaled before. The check for the
  journal row is what makes recovery safe; a crash in that window costs the whole prefix, and only
  there (`SearchRuns.RecoverableUnlessLastRowMissing`).
* Completed rows are meant to survive an interruption (lines 339-343). A search that starts in an empty
  directory and is always resumed as it is, with the same protocol and workload file, keeps this promise once its
  audit file exists, crashes and clock stops included (`JournalGrowth.JournalNeverShrinks`); before that the
  journal holds at most one name (`AuditlessJournalHoldsOne`). Runs that always resume, but several searches, keep
  it if and only if these agree on the first candidate (`ResumingKeepsNamesIff`, `JournalCanShrinkOnce`).
  Whether one restart over arbitrary files can lose a name is decided there: from the restart on
  every name stays if and only if nothing is journaled yet or the process resumes from an audit file
  (`RestartKeepsNamesIff`), and from the first audit file on it stays also if there was none and the journal
  holds no other name than the process's own first candidate, or the first cell has nothing to measure
  (`OnceAuditedIff`). A restart outside the first condition has a run that saves an empty result over the
  whole journal when a clock stops its first cell (`UnsafeRestartLoses`), and one without a clock that leaves
  the first measured row only (`UnsafeRestartReplaces`).
* A resume is documented with the original workload file (`docs/hardware_profile_install.md:494-496`), but
  the audit does not record the file and any other is accepted. Finished cells then survive if and only if the
  new file lists exactly the finished workloads first (`CellSurvival.ResumeKeepsFinishedIff`); otherwise the
  process can write an audit without one of them (`DropsFinished`).
* A resume is refused over measurements of other binaries, but `run_compiled_search` compares only the
  identity in the audit file (lines 325-328). A build that does not resume and is stopped between its first two
  checkpoint writes leaves its row under the audit file of an old build, or its audit file over a row of an
  old one, and a later resume of the build named there takes the row over. `RowProvenance.NeverMixesIff`
  is the exact condition on a restart under which that cannot happen; with one build it never does
  (`OneBuildNeverMixes`).
* A launch with a null output and two or more groups is not refused before anything has run. The null
  check sits in the launcher of the single group (`scripts/compile_module.py:268-271`), so all groups
  but the last run and overwrite the workspace, and the result is the first failing status or that
  of the refused last group (`LaunchChain.NullOutputOverwritesWorkspace`).
* `overlap` is documented for internally disjoint lists and is exact there. `analyze_factors`
  (line 112) also calls it on the slices of a factor, which may overlap each other. On lists sorted
  by start the result lies between the shared time and the sum of all pairwise intersections
  (`IntervalOverlap.SweepBrackets`), so it is positive exactly when something ran at the same time and
  the verdict `actual_overlap` is right (`FactorTrace.ActualOverlapIsExact`). The amount is the shared
  time if and only if no drop takes an interval that shares jointly covered time with the rest of
  its own list (`IntervalOverlap.SweepExactIff`); it is when no two intervals of one list overlap at
  a time the other list covers (`SweepExactWithoutDoubleCover`). `TraceWitness` is a trace without
  violations for which 35 nanoseconds are reported where both factors run for at most 20.
* The tile count of a range check is computed by a shift that drops high bits; it is the true count if
  and only if the shift fits 64 bits, and never above it (`LaunchRange.FullCountExact`).
* The number of finalists is the smaller of the limit and the number of distinct correct designs
  for limits from 1; a limit of 0 would act as 1. The command line refuses it (line 847).
* That every axis is covered early is proved for the greedy part of the strategy order, its first 32
  entries; behind them the order is by tuple.

## Model

| member | source | states |
|---|---|---|
| `Primality.MillerRabin` | scripts/build_crypto_application_matrix.py:54-81 | the loops answer True exactly for 2..37 from the list and for numbers without a small factor that pass the strong test to all seven bases |
| `Primality.StrongTest` | scripts/build_crypto_application_matrix.py:68-80 | one base passes iff it vanishes, its odd power is 1, or some repeated square before the last is -1 |
| `Primality.AcceptanceMeaning` | scripts/build_crypto_application_matrix.py:54-81 | a number is accepted iff it is one of the primes up to 37, or none of them divides it and, with n - 1 = d*2^s, each of the seven published bases is a multiple of n or has power 1 at n - 1 and no square root of 1 among its powers d*2^r but 1 and -1 |
| `Primality.BaseMeaning` | scripts/build_crypto_application_matrix.py:68-80 | that equivalence for one base of any size |
| `Primality.PrimesAccepted` | scripts/build_crypto_application_matrix.py:54-81 | a prime of any size is never rejected |
| `Primality.ExactBelow1681` | scripts/build_crypto_application_matrix.py:58-62 | below 41^2 the answer is primality itself |
| `Primality.ChainDescent` | scripts/build_crypto_application_matrix.py:72-80 | modulo a prime, walking back from 1 along the squares meets -1 or reaches 1 at the start |
| `Primality.ComputeTwoAdicity` | scripts/build_crypto_application_matrix.py:84-89 | the loop counts the factors of two |
| `Primality.TwoAdicityIsLargest` | scripts/build_crypto_application_matrix.py:84-89 | 2^k divides the value iff k is at most the two-adicity |
| `Primality.FindPrime` | scripts/build_crypto_application_matrix.py:92-108 | returns the first accepted number of exactly the requested width and two-adicity, so that every smaller prime of that two-adicity has fewer bits; raises ValueError exactly on bad arguments and RuntimeError only if no number of that shape is accepted, hence none is prime |
| `Primality.ShapeIndex` | scripts/build_crypto_application_matrix.py:101-104 | the odd indices between the two shifted bounds are exactly the numbers of the requested width and two-adicity |
| `ModulusRules.ValidateSpec` | scripts/build_crypto_application_matrix.py:175-191 | accepts exactly the specifications whose width, acceptance, two-adicity and word limits are right |
| `ModulusRules.ValidSpecMeaning` | scripts/build_crypto_application_matrix.py:175-191 | in powers of two: p is accepted, has exactly the stated bits, p - 1 is an odd multiple of 2^a, p is below 2^63 and, for 32-bit words, below 2^31 |
| `ModulusRules.BitLengthIsWidth` | scripts/build_crypto_application_matrix.py:179-180 | bit_length is b iff the value lies between 2^(b-1) and 2^b |
| `ModulusRules.SyntheticSpec` | scripts/build_crypto_application_matrix.py:111-126 | every searched modulus passes the later validation; a failed search means no prime of that shape exists |
| `AcceptedModulus.DivisorsAreOneModulo` | scripts/build_crypto_application_matrix.py:72-80 | if b^(d*2^r) is -1 modulo an odd n, every prime divisor of n is 1 modulo 2^(r+1) |
| `AcceptedModulus.LateMinusOneIsPrime` | scripts/build_crypto_application_matrix.py:72-80 | such an n of at most 2(r+1) bits is prime |
| `AcceptedModulus.ValidatedIsPrime` | scripts/build_crypto_application_matrix.py:175-191 | a validated modulus whose two-adicity is at least half its width is prime as soon as one base has power -1 at (p-1)/2, whatever the strong test leaves open |
| `ModulusRules.CyclicRootAvailability` | scripts/build_crypto_application_matrix.py:194-198 | every mode but "negacyclic" answers True iff logN is not negative and Z_p has an element of order exactly 2^logN |
| `ModulusRules.NegacyclicRootAvailability` | scripts/build_crypto_application_matrix.py:194-198 | negacyclic mode answers True iff logN is not negative and some psi has psi^(2^logN) = -1 modulo p |
| `ModulusRules.RootBound` | scripts/build_crypto_application_matrix.py:194-198 | a polynomial over Z_p has at most as many roots as its degree, the reason roots exist up to the two-adicity |
| `ModulusRules.OrderDivides` | scripts/build_crypto_application_matrix.py:194-198 | orders divide p - 1, the reason none exist beyond it |
| `ModulusRules.CosetAvoidsRoots` | scripts/build_crypto_application_matrix.py:286-289 | a generator is accepted iff it is a unit whose coset of the N-th roots of unity contains no N-th root of unity |
| `NumberTheory.Fermat` | scripts/build_crypto_application_matrix.py:72-73 | a^(p-1) is 1 modulo a prime that does not divide a |
| `GreedyCoverage.Best` | scripts/calibration_space.py:175-177 | the minimum under (fewest old values, fewest uses, tuple order) |
| `GreedyCoverage.StrategyOrder` | scripts/calibration_space.py:158-182 | a permutation of the strategies: the default first, greedy up to 32, the rest sorted |
| `GreedyCoverage.FactorStrataOrder` | scripts/calibration_space.py:219-227 | a permutation of the factor strata, greedy throughout |
| `GreedyMeaning.StrategyOrderMeaning` | scripts/calibration_space.py:158-182 | entry against entry: the default stands first; any other of the first 32 entries adds at least as many axis values as each later one, among equals repeats its values less often, among these is the smaller tuple; from entry 32 on tuples ascend |
| `GreedyMeaning.FactorOrderMeaning` | scripts/calibration_space.py:219-227 | the same comparison for every entry of the factor strata |
| `GreedyMeaning.SortedOrderMeaning` | scripts/calibration_space.py:197 | families and launch mappings ascend as tuples |
| `GreedyCoverage.SaturatedPickCovers` | scripts/calibration_space.py:174-181 | as soon as a pick adds no axis value, every value of every axis has been picked |
| `GreedyCoverage.GreedyOrderCovers` | scripts/calibration_space.py:219-227 | full coverage within (distinct axis values - axes + 1) picks |
| `GreedyMeaning.PreferringCovers` | scripts/calibration_space.py:174-181 | any order with that comparison has shown all its (axis, value) pairs after m entries, m being their number minus the number of axes plus one |
| `GreedyCoverage.StrategyOrderUnique` | scripts/calibration_space.py:158-182 | the order does not depend on set iteration |
| `GreedyCoverage.FactorOrderUnique` | scripts/calibration_space.py:219-227 | the order does not depend on set iteration |
| `StratifiedOrder.StratifiedCandidates` | scripts/calibration_space.py:185-304 | budget 0 gives the complete order, any other budget its first min(b, n) entries |
| `StratifiedOrder.StratifiedPermutes` | scripts/calibration_space.py:185-304 | the complete order is a permutation of the points on all three paths |
| `StratifiedOrder.StratifiedOrderUnique` | scripts/calibration_space.py:185-304 | the complete order is determined by the points |
| `OrderMeaning.FactorOrderIs` | scripts/calibration_space.py:201-230 | on the factor path p stands before q iff p has fewer points of its own stratum with a smaller identity, or as many and its stratum comes first; so a stratum ascends in identity |
| `OrderMeaning.MappedOrderIs` | scripts/calibration_space.py:231-304 | on the other path: first the smallest identity of each strategy in strategy order, then that of each family, then that of each launch mapping, then the remaining points of each stratum in turn, ascending in identity within it |
| `OrderMeaning.FamiliesInterleave` | scripts/calibration_space.py:191-200 | with several families p stands before q iff its place in its own family is smaller, or the same and its family is the smaller tuple |
| `OrderMeaning.OneFamilyOrder` | scripts/calibration_space.py:191-201 | with one family the complete order is that of the family |
| `StratifiedOrder.RoundRobinIsFair` | scripts/calibration_space.py:195-199 | every prefix has reached the same depth in every queue that is long enough, up to one entry |
| `StratifiedOrder.StrategiesFirst` | scripts/calibration_space.py:253-270 | the first entries are one representative of each strategy, in strategy order |
| `StratifiedOrder.ScreeningCoversAxes` | scripts/calibration_space.py:253-270 | the first m points show every value of every strategy axis once m reaches the coverage bound |
| `StratifiedOrder.StratifiedShows` | scripts/calibration_space.py:185-304 | in the complete order of any library the first m entries per family show every axis value of a family, m being its own coverage bound |
| `StratifiedOrder.RemoveDuplicates` | scripts/calibration_space.py:297-303 | keeps the first occurrence of every identity |
| `StratifiedOrder.GroupBy` | scripts/calibration_space.py:191-193 | the setdefault/append loop yields, for each key, the points with that key in order |
| `ResumePrefix.ResumeSelectionPrefix` | scripts/calibrate_local_hardware.py:211-263 | returns the selections exactly when every screened turn is recorded once, consistently and with its journal row, and None otherwise |
| `ResumePrefix.RecoveryMeans` | scripts/calibrate_local_hardware.py:211-263 | entry by entry: None iff the cell is complete, has no positive screened count, two entries claim one turn, or some screened turn has no entry whose identity, configuration and journal row agree; otherwise each turn gives the configuration and row of its entry |
| `ResumePrefix.IndexTurns` | scripts/calibrate_local_hardware.py:227-236 | indexes the candidates by turn; None exactly when two claim the same turn |
| `SearchRuns.ResumeIsFaithful` | scripts/calibrate_local_hardware.py:508-570 | in every run with crashes a recovered prefix is exactly the recorded selections in order, without repeats, each with its journal row |
| `Resumption.OpeningFollowsTheFiles` | scripts/calibrate_local_hardware.py:495-570 | in every run from an empty directory each cell a process opens follows from the two files it found: a finished workload returns the recorded cell and its journaled rows, an interrupted one whose selections are all journaled under the same budget continues with exactly these rows, the stratified order without them, its recorded selections and the next turn, and any other starts with nothing screened and the whole order |
| `Resumption.InterruptedCellContinues` | scripts/calibrate_local_hardware.py:508-570 | so a process that resumes the recorded search with every recorded selection journaled measures none of them again |
| `SearchRuns.StepKeepsInv` | scripts/calibrate_local_hardware.py:324-710 | every step, restart and crash keeps the invariant tying audit, journal, memory and history |
| `SearchRuns.RecoverableUnlessLastRowMissing` | scripts/calibrate_local_hardware.py:658-670 | when every restart resumes, a prefix is recoverable iff the row of the last selection reached the journal |
| `JournalGrowth.JournalNeverShrinks` | scripts/calibrate_local_hardware.py:324-343 | in every run from an empty directory that always resumes one search, with crashes anywhere, no journaled name is lost once the audit file exists |
| `JournalGrowth.AuditlessJournalHoldsOne` | scripts/calibrate_local_hardware.py:333-343 | in every run from an empty directory, whatever its restarts, a journal without an audit file holds at most one name, the first candidate of one of the searches of the run |
| `JournalGrowth.OnceAudited` | scripts/calibrate_local_hardware.py:324-343 | along any run from a stop whose restarts satisfy the condition of `OnceAuditedIff`, the journal names only grow once the audit file exists |
| `JournalGrowth.OnceAuditedIff` | scripts/calibrate_local_hardware.py:322-343 | at one restart over any files: no name journaled while an audit file exists can be lost iff the process resumes from an audit file, or nothing is journaled, or there is no audit file and the journal holds at most the process's own first candidate or its first cell measures nothing |
| `JournalGrowth.ResumingKeepsNamesIff` | scripts/calibrate_local_hardware.py:324-343 | for any set of searches: all runs from an empty directory that only ever resume one of them keep the names once the audit file exists iff the searches that measure anything share the first candidate |
| `JournalGrowth.JournalCanShrinkOnce` | scripts/calibrate_local_hardware.py:324-343 | for any two searches with different first candidates a run, always resumed and without clock stops, that loses a name although the audit file exists |
| `JournalGrowth.RestartKeepsNamesIff` | scripts/calibrate_local_hardware.py:322-343 | whatever a restarted process does, every journaled name stays iff none is journaled yet or the process resumes from an audit file |
| `JournalGrowth.UnsafeRestartLoses` | scripts/calibrate_local_hardware.py:322-343 | after any other restart a run exists that loses every journaled name |
| `JournalGrowth.UnsafeRestartReplaces` | scripts/calibrate_local_hardware.py:322-343 | and one without a clock stop that leaves only the first measured candidate |
| `RowProvenance.NeverMixesIff` | scripts/calibrate_local_hardware.py:322-343 | at one restart over unmixed files: no journaled row can come under an audit file of other binaries iff the process resumes from both files, or has the binaries of the rows on disk, or its first cell measures nothing |
| `RowProvenance.FilesStayUnmixed` | scripts/calibrate_local_hardware.py:322-343 | along any run whose restarts satisfy that condition every row on disk and in memory was measured with the binaries that the audit file, or the process, names |
| `RowProvenance.OneBuildNeverMixes` | scripts/calibrate_local_hardware.py:322-343 | with one build all rows on disk are its own, whatever the restarts and searches |
| `CellSurvival.FinishedCellsSurvive` | scripts/calibrate_local_hardware.py:333-338 | across crashes and resumes of one search that lists no workload twice every finished cell stays in the audit file, unchanged and at its place |
| `CellSurvival.ResumeKeepsFinishedIff` | scripts/calibrate_local_hardware.py:333-338 | a resume under the recorded protocol with any workload file, shorter, longer, reordered or with repetitions: what the audit file holds for each finished workload never changes iff a prefix of the file consists of exactly the finished workloads |
| `CellSurvival.DropsFinished` | scripts/calibrate_local_hardware.py:333-338 | with any other file there is a run of the process that writes an audit without one of the finished workloads |
| `SearchGuarantees.FinishedCellIsComplete` | scripts/calibrate_local_hardware.py:498-504 | in every run from an empty directory, whatever its restarts, a finished cell on disk records a legal sequence of distinct selections, as long as its screened count; this is at most, and without a clock stop exactly, the seeds plus the search budget, or plus the whole order when the budget is 0 or larger |
| `SearchGuarantees.FinishedCellIsJournaled` | scripts/calibrate_local_hardware.py:339-343 | and every selection it records is in the journal, along restarts that satisfy the condition of `OnceAuditedIff` |
| `SearchGuarantees.FinishedForGood` | scripts/calibrate_local_hardware.py:333-343 | in a search that lists no workload twice and is always resumed as it is, a finished cell stays in place, unchanged, complete and fully journaled, over any number of crashes |
| `SearchGuarantees.ScreenedFairly` | scripts/calibrate_local_hardware.py:575-666 | after non-seed turn 4t the first t+1 points of the stratified order have been screened, also across resumes |
| `SearchGuarantees.BudgetIsExact` | scripts/calibrate_local_hardware.py:516-528 | in every reachable selecting state a choice exists iff fewer points than the seeds plus the requested library points are screened, the end iff as many, and nothing was screened twice |
| `SearchGuarantees.TurnsAreFree` | scripts/calibrate_local_hardware.py:575-666 | in every reachable selecting state a turn is possible iff fewer points than seeds plus requested library points are screened; it measures the next seed, then any frontier entry, the first one on every fourth turn; without a clock screening ends exactly at that number |
| `SearchResults.WritesPending` | scripts/calibrate_local_hardware.py:339-343 | every journal write keeps each retained row but those it has newer values for: finished cells and the screened, confirmed or still unconfirmed rows of the current one |
| `SearchResults.FinishedSearch` | scripts/calibrate_local_hardware.py:692-713 | a search that ends has written one finished cell per workload in order under its own binaries and protocol, and returns for each one row a selection in the order of the turns, or for a cell it found finished the journaled rows of its candidates |
| `Screening.CellSearch.Turn` | scripts/calibrate_local_hardware.py:600-638 | one turn screens the next seed, or the preferred entry of the frontier, or its first entry on every fourth turn and before there is a model, and takes only that entry out of the frontier |
| `Screening.CellSearch.Run` | scripts/calibrate_local_hardware.py:575-666 | without a time limit the cell screens exactly the seeds plus the search budget, or plus the whole order when the budget is 0 or larger, pairwise distinct, keeping what it resumed with |
| `Screening.BudgetIs` | scripts/calibrate_local_hardware.py:516-517 | the requested number in the three cases of the search budget |
| `Screening.CellSearch.Select` | scripts/calibrate_local_hardware.py:600-637 | which entry a turn takes |
| `Screening.FrontierOrder` | scripts/calibrate_local_hardware.py:638 | the frontier holds exactly the unscreened points of the order, each once and in the order's sequence |
| `Screening.StarvationBound` | scripts/calibrate_local_hardware.py:601-637 | every fourth turn takes the next stratum, whatever the model prefers |
| `Screening.ExhaustiveBudget` | scripts/calibrate_local_hardware.py:515-517 | search budget 0 screens every seed and every library point |
| `Screening.NeverRunsOut` | scripts/calibrate_local_hardware.py:623-625 | before the budget is used up the frontier is not empty |
| `Screening.FrontierSize` | scripts/calibrate_local_hardware.py:638 | the frontier loses exactly one point a non-seed turn |
| `Screening.LegalMembers` | scripts/calibrate_local_hardware.py:626-638 | nothing is selected that is neither a chosen seed nor a library point |
| `Screening.LegalDistinct` | scripts/calibrate_local_hardware.py:638 | no candidate is selected twice |
| `Screening.ScreeningShowsEveryAxisValue` | scripts/calibrate_local_hardware.py:600-638 | order and turns together, for libraries of any number of families on either path: by a fixed turn every axis value of a family has been measured |
| `Finalists.ChooseFinalists` | scripts/calibrate_local_hardware.py:671-691 | different design points, each with its first row among the fastest correct ones, in the order of speed; a correct row is left out only for its own design point or at the limit, behind all chosen; and exactly the smaller of the limit and the number of correct design points |
| `Finalists.KeyMeans` | scripts/calibrate_local_hardware.py:679-685 | two rows are one design point iff both samples give the same design key, or both are incomplete and have the same name |
| `FactorPartition.CheckPartition` | scripts/compile_module.py:180-200 | accepts exactly the positive bounded lists in which the factors split the macro stages one by one |
| `FactorPartition.PartitionMeans` | scripts/compile_module.py:180-200 | a transform of 2 to 2^30 points in factors of 2 to 2^14, both lists adding up to it, with a factor ending wherever a stage ends |
| `FactorPartition.BoundariesGiveRefinement` | scripts/compile_module.py:194-200 | meeting every macro boundary is splitting every macro stage |
| `FactorPartition.RefinementMeetsBoundaries` | scripts/compile_module.py:194-200 | and conversely |
| `LaunchChain.LaunchFactors` | scripts/compile_module.py:268-294 | a missing workspace, input, batch or stride, and a null output of a single group, are refused with nothing touched; otherwise the groups run in turn until the first that fails or is refused, each reading what the one before wrote, and only the last one writes the output |
| `LaunchChain.LaunchShared` | scripts/compile_module.py:391-406 | the same for the unrolled chain, which checks the batch and needs its coefficient tables |
| `LaunchChain.LaunchRegister` | scripts/compile_module.py:149-160 | the same for the two-group chain, which checks all pointers first |
| `LaunchChain.SuccessMeansComposition` | scripts/compile_module.py:285-294 | success is reported iff the call is not refused, has an output and all groups succeed, and then the output holds the left-to-right composition on the original input, also when it aliases the input for two or more groups |
| `LaunchMeaning.SuccessMeans` | scripts/compile_module.py:268-294 | success iff no needed pointer is null, the batch is not empty, a factor module has both strides, a shared one its tables, and all groups succeed; the output then ends a chain of vectors from the original input, each made by the next group from the one before |
| `LaunchMeaning.FailureLeaves` | scripts/compile_module.py:268-294 | a call refused at once changes nothing and reports 1; otherwise the first failing group is reported, the group before it has left its vector in its half of the workspace, and the output is untouched unless the last group failed |
| `LaunchMeaning.WritesOnly` | scripts/compile_module.py:285-294 | nothing but the output and no, one or two extents of workspace, for one, two or more groups, is ever written |
| `LaunchChain.NullOutputOverwritesWorkspace` | scripts/compile_module.py:285-294 | with a null output all groups but the last run into the workspace, nothing else changes, and the launch fails with the first failing status or the refusal |
| `LaunchChain.RunChain` | scripts/compile_module.py:289-293 | the loop over the groups stops at the first failing or refused group, with the composition of the groups before it in place; a failing group may have written anything to its destination |
| `LaunchChain.RegionsApart` | scripts/compile_module.py:290-292 | no group reads the region it writes |
| `LaunchChain.ExtentIsTight` | scripts/compile_module.py:287 | the extent is one more than the largest address, so it is the smallest that holds every element |
| `LaunchChain.LayoutIsValid` | scripts/compile_module.py:287 | a call with a packed or interleaved layout, or with a single transform or element, addresses every element at its own place below the extent, so the launch theorems apply to it |
| `LaunchRange.AcceptRange` | scripts/compile_module.py:272-284 | with usable buffers and strides accepts, for partial groups, exactly the non-empty ranges with a positive span no longer than the period all of whose tiles are below the computed count, otherwise exactly the full range; never a tile beyond the true count; no operation but the shift leaves 64 bits |
| `LaunchRange.TileMeaning` | scripts/compile_module.py:277-280 | entry m of stretch q is tile first + q*period + m |
| `LaunchRange.FullCountExact` | scripts/compile_module.py:248 | the computed count is at most the true number of tiles, and equal to it iff the shift fits 64 bits |
| `LaunchRange.TilesDistinct` | scripts/compile_module.py:273-280 | the tiles of a well-formed range are pairwise distinct |
| `LaunchRange.LastTileDecides` | scripts/compile_module.py:278-280 | checking the last tile checks all |
| `KernelName.FactorParameters` | scripts/analyze_stage_overlap.py:68-81 | the scan loop reads exactly what the specification function reads, stripped blanks and error cases included |
| `KernelName.ReadArguments` | scripts/analyze_stage_overlap.py:72-81 | for any nine or more bracket-balanced arguments the scan recovers the list, whatever precedes and follows |
| `KernelName.NameReadsBack` | scripts/analyze_stage_overlap.py:68-81 | any name with balanced arguments that carry (total, log, done), however decorated and in any surrounding text, reads back as (total, log, done) |
| `NameMeaning.NotAFactorMeans` | scripts/analyze_stage_overlap.py:68-71 | a name is skipped iff the kernel's name and opening bracket occur nowhere in it |
| `NameMeaning.ReadMeans` | scripts/analyze_stage_overlap.py:72-81 | otherwise the text behind the first occurrence splits at its top-level commas, up to the closing bracket, into arguments; the name is malformed iff there are fewer than nine or one of the second to fourth has no digit, and else gives the first number in each of these |
| `KernelName.PrintedKernelNamesGroup` | scripts/compile_module.py:225-230 | the printed kernel is such a name, for any balanced first argument, wherever it is quoted and under every I/O policy |
| `KernelName.PrintedKernelReadsBack` | scripts/compile_module.py:209-230 | in particular the generated text with its own alias reads back |
| `KernelName.DemangledKernelNamesGroup` | tests/test_stage_overlap_trace.py:24 | so is the demangled form a trace records, with return type, namespaces, unsigned suffixes and blanks |
| `FactorTrace.KeysPassChain` | scripts/analyze_stage_overlap.py:102-105 | the coordinates of an accepted factor list are sorted, pass the chain check and give the list back |
| `FactorTrace.ChainDeterminesFactors` | scripts/analyze_stage_overlap.py:104-105 | the chain check accepts nothing but the coordinates of a factor list |
| `FactorTrace.TraceRecoversFactors` | scripts/analyze_stage_overlap.py:96-105 | from the names a trace holds, in any such form and among rows of other kernels, which are skipped, the checker recovers the factor list of a lowered transform |
| `FactorTrace.AnalyzeFactors` | scripts/analyze_stage_overlap.py:84-141 | reports exactly on complete traces of one transform, with the partition read from the names, the streams of every factor, each violated edge and each early launch once, and the overlap of every edge |
| `TraceMeaning.AcceptedMeans` | scripts/analyze_stage_overlap.py:93-107 | which traces are reported: all factor names agree on one transform, their coordinates follow each other without a gap from 0 to it, and every factor but the last has as many launches as the last one times the slices |
| `TraceMeaning.GroupPicksOut` | scripts/analyze_stage_overlap.py:93-101 | the launches of a factor are the rows that carry its coordinate, in trace order |
| `TraceMeaning.ReportMeans` | scripts/analyze_stage_overlap.py:115-141 | on the launches alone: a violation is a launch that starts before its own slice of the producer has ended, before any of them for the final one; an early launch is a non-final one that starts before some slice of its producer in the same invocation has ended; actual overlap is reported iff there is no violation, an early launch, and a time at which two neighbouring factors run |
| `FactorTrace.EdgeChecksDecideGlobalOrder` | scripts/analyze_stage_overlap.py:115-124 | no violation iff every slice follows the same slice of every earlier factor and the final launch follows every other launch |
| `FactorTrace.FindViolations` | scripts/analyze_stage_overlap.py:115-124 | the three loops list exactly the violated dependencies and exactly the early launches, each once |
| `FactorTrace.ActualOverlapIsExact` | scripts/analyze_stage_overlap.py:137-141 | actual_overlap is reported iff the launches are globally ordered, some launch is early and two neighbouring factors ran at the same time |
| `FactorTrace.EdgeOverlapExactIff` | scripts/analyze_stage_overlap.py:109-114 | the overlap reported for an edge is the time both factors ran iff no drop of the sweep takes a launch that shares jointly covered time with later launches of its own factor |
| `TraceWitness.AcceptedTraceOvercounts` | scripts/analyze_stage_overlap.py:106-141 | a trace of three factors and four slices, accepted without violations, whose reported overlap of 35 exceeds a shared time of at most 20 |
| `TraceMeaning.ExampleOverlaps` | scripts/analyze_stage_overlap.py:115-141 | that trace has exactly one early launch, slice 0 of the second factor, and is reported as actual overlap |
| `TraceWitness.ExampleNames` | tests/test_stage_overlap_trace.py:23-29 | names in the demangled form, with any prefix, type and further arguments, make that trace one of 2^18 points in factors of 2^6 |
| `IntervalOverlap.Overlap` | scripts/analyze_stage_overlap.py:14-24 | the two-pointer loop computes the recursive sweep |
| `IntervalOverlap.SweepIsSharedTime` | scripts/analyze_stage_overlap.py:14-24 | on internally disjoint lists the sweep is the sum of all pairwise intersections and the number of time points covered by both lists |
| `IntervalOverlap.SharedTimeMeans` | scripts/analyze_stage_overlap.py:14-24 | the shared time is the size of the set of times at which an interval of either list runs |
| `IntervalOverlap.SweepBrackets` | scripts/analyze_stage_overlap.py:14-24 | on any lists sorted by start it lies between the shared time and the sum of all pairwise intersections |
| `IntervalOverlap.SweepDetectsOverlap` | scripts/analyze_stage_overlap.py:112-141 | on lists sorted by start it is positive iff some time point is covered by both lists |
| `IntervalOverlap.SweepExactIff` | scripts/analyze_stage_overlap.py:14-24 | on lists sorted by start the amount is the shared time iff no drop takes an interval that shares jointly covered time with the rest of its own list |
| `IntervalOverlap.SweepExactWithoutDoubleCover` | scripts/analyze_stage_overlap.py:14-24 | it is when no two intervals of one list overlap at a time the other list covers |
| `IntervalOverlap.SweepCanOvercount` | scripts/analyze_stage_overlap.py:112 | a family of inputs on which the amount exceeds the shared time by the length of a nested interval |
| `IntervalOverlap.UnionMeasure` | scripts/analyze_stage_overlap.py:37-38 | total duration minus overlap is the measure of the union; the overlap is symmetric |
| `IntervalOverlap.OverlapFraction` | scripts/analyze_stage_overlap.py:37-64 | the quotient of the sweep and the total duration minus the sweep, undefined exactly when that is zero |
| `IntervalOverlap.FractionOfBusyTime` | scripts/analyze_stage_overlap.py:62-64 | for internally disjoint lists the reported fraction is the number of times both lists run over the number at which any does, lies between 0 and 1, and is undefined iff nothing runs |
| `BitReversal.ReverseBits` | apps/cuntt_bench.cpp:138-144 | the 32-bit loop reverses the low bits without losing any, for widths up to 32 |
| `BitReversal.RevBits` | apps/cuntt_bench.cpp:138-144 | bit i of the reversal is bit b - 1 - i of the value |
| `BitReversal.RevInvolution` | apps/cuntt_bench.cpp:138-144 | reversal is an involution on the numbers below 2^b |
| `BitReversal.GatherReordered` | apps/cuntt_bench.cpp:163-169 | gathering produces the bit-reversed order |
| `BitReversal.ScatterReordered` | apps/cubutterfly_stage_microbench.cpp:318-325 | scattering produces the same array |
| `BitReversal.BitReversedTwice` | apps/cuntt_bench.cpp:163-169 | reordering twice restores the natural order |
| `PiecewiseSelector.BuildModel` | scripts/build_numeric_piecewise_selector.py:61-104 | one contract per key, with sorted anchors and an interval per neighbouring pair |
| `PiecewiseSelector.SelectMeaning` | scripts/build_numeric_piecewise_selector.py:107-127 | a mapping is selected iff the batch is a stable measured one won by it, or unmeasured and strictly between neighbouring stable ones both won by it |
| `MeasuredPoints.SelectionMeaning` | scripts/build_numeric_piecewise_selector.py:54-127 | the same with the margins written out: a measured batch answers for itself if it is separated, unmarked and wins by the margin its kind of evidence requires; any other is answered only by the two points around it, when both do so for the same winner |
| `PiecewiseSelector.EvaluateLeaveOneOut` | scripts/build_numeric_piecewise_selector.py:130-176 | one decision a target, and an error exactly when none is selected |
| `PiecewiseSelector.LeaveOneOutMatchesSelect` | scripts/build_numeric_piecewise_selector.py:138-164 | a target is auto-selected iff the model of its contract's other stable shapes selects that mapping, it is no evidence boundary and it offers the mapping |
| `MeasuredPoints.LeaveOneOutMeaning` | scripts/build_numeric_piecewise_selector.py:138-164 | a held-out point is predicted iff it is unmarked, offers the mapping, and points on both sides show that winner with nothing between them but the target showing any |
| `PiecewiseSelector.FullModelIsMoreCautious` | scripts/build_numeric_piecewise_selector.py:54-127 | whatever the full model selects the model of the stable shapes selects too |
| `MeasuredPoints.MeasurePoints` | scripts/build_numeric_piecewise_selector.py:12-29 | one point a shape in order of first occurrence, with the fastest row, earlier rows first among equals, its margin over and separation from the second; an error iff some shape has a single row or a fastest median of zero |
| `MeasuredPoints.Overlay` | scripts/build_numeric_piecewise_selector.py:32-35 | the last point of every shape remains, so no shape occurs twice |
| `MeasuredPoints.ApplyFollowups` | scripts/build_numeric_piecewise_selector.py:38-47 | exactly the shapes with a reversed or unconfirmed follow-up are marked, and shapes stay distinct |
| `MeasuredPoints.SelectedIsFastest` | scripts/build_numeric_piecewise_selector.py:12-127 | from rows to decision: a mapping selected at a measured shape is that of a row there which every other row exceeds by the required margin |
| `RankValues.Ranks` | scripts/analyze_fft_pipeline_model.py:17-29 | every element gets (smaller values) + (equal values + 1)/2 |
| `RankValues.RankMeans` | scripts/analyze_fft_pipeline_model.py:17-29 | the rank of a value from the sets of positions holding smaller and equal values |
| `RankValues.RankRespectsOrder` | scripts/analyze_fft_pipeline_model.py:17-29 | ranks order the values exactly, ties included |
| `RankValues.RankInvariant` | scripts/analyze_fft_pipeline_model.py:17-29 | a strictly increasing map of the values changes no rank |
| `RankValues.RanksSum` | scripts/analyze_fft_pipeline_model.py:17-29 | the ranks always sum to n(n+1)/2 |

## Left out

- The seven bases accept no composite below 2^64: a published computation that does not follow from the code; stated are the prime direction, what acceptance says of each base (`Primality.AcceptanceMeaning`), the range below 41^2, and the moduli for which it implies primality (`AcceptedModulus`).
- The evolutionary strategy (`scripts/evolutionary_search.py`) and wall-clock budgets: the turns are those of model mode; a clock stop is the step `EndScreening(true)` and excluded only where exact budget use is stated.
- Cost-model fitting, plan probing, descriptors and the contents of samples: the model's choice, the outcome of a measurement and whether a cached row is reused are arbitrary.
- `SearchRuns.RecoverableUnlessLastRowMissing`: stated for runs whose restarts resume; a restart told not to resume over existing files overwrites the journal before the audit, and a crash in between leaves files of two searches side by side.
- The library listing and the seed snapshot are taken to be fixed by the search protocol; it lists each design point once; a listing that changes under one protocol is not modelled, nor are seeds beyond the seed budget except as listed candidates.
- `CellSurvival.FinishedCellsSurvive`: is about workload files without repetitions; with one, the dictionary of finished cells hands the last cell of the workload to each of its places, and what survives then is the entry of the dictionary (`CellSurvival.ResumeKeepsFinishedIff`).
- `RowProvenance.NeverMixesIff`: is about `run_compiled_search` alone; the identity file that `run_operator_calibration` compares before it calls the search (`scripts/calibrate_local_hardware.py:729-735`) is not part of this model, and would refuse some of the resumes that are accepted here.
- `candidate_id` as a digest, JSON parsing and file replacement: identities are injective and a checkpoint write is one atomic step.
- The factor shape checks other than the partition (element counts, columns, slices, I/O policies) and the generated resource queries: per-group arithmetic without a property that spans operations.
- `LaunchChain.RunChain`: pointer arithmetic is on element addresses without wrap-around, and the unconditional check for a null invocation is not modelled.
- `KernelName.FactorParameters`: does not model decimal digits outside ASCII, which kernel names do not contain.
- `FactorTrace.AnalyzeFactors`: does not model the plot and the order of the streams in a list; the order by start that the query gives is a premise only where it is needed.
- `PiecewiseSelector.BuildModel`: does not model runner-ups, candidate lists and reasons, which no decision depends on.
- `PiecewiseSelector.EvaluateLeaveOneOut`: does not model the regret metrics, which need logarithms and are not used by a decision.
- The APPT-static layouts of both benchmarks: `appt_static_index` and `reference_ntt` are not part of this model.
- Floating point: ranks, latencies, margins and fractions are real numbers.
