# FinanceOps: verified models of the core engines

This project models, in Dafny, the parts of the FinanceOps platform whose correctness rests on state
machines, matching loops and hash chains, and proves what they are for. Seven components are covered:

1. **Prompt engine** (`DependencyGraph.dfy`, `Executor*.dfy`, `EngineLedger.dfy`): ordering a prompt catalog, running
   it, stopping at the first failure, the bounded rework loop, all on the ledger file itself. Guardrails, pytest,
   callbacks, the stop file, the texts of each record and whether an append reaches the disk are answers of an
   arbitrary `World`.
2. **Prompt ledger** (`Ledger*.dfy`, `PyText.dfy`): the Markdown file itself, character by character: printing and
   parsing rows, setting up the section, appending, verifying and repairing the hash chain. SHA-256 is a parameter
   that yields 64 hexadecimal digits; collision freedom is only ever asked of the finite set of payloads at hand.
3. **Bank reconciliation** (`BankRecon*.dfy`): the three greedy passes over two indexes and the open candidates, for
   candidates with or without repeated references. Amounts are reals, dates are day numbers, the similarity ratio is a
   parameter.
4. **Credits** (`CreditBooks.dfy`, `CreditService.dfy`): reservations and the transaction log for any number of
   tenants; one call under the row lock is one step, a run is any interleaving.
5. **Audit trail** (`ChainHash.dfy`, `AuditChain.dfy`): writing under the lock query, and rebuilding the chain from an
   unordered set of rows.
6. **LLM runtime** (`CircuitBreaker.dfy`, `Fallback.dfy`, `TokenBudget.dfy`, `SseParser.dfy`, `StreamingAi.dfy`): the
   circuit breaker against its full history, the fallback loop, prompt truncation, and a streamed answer from the
   server's models to what the browser shows.
7. **Accounting policies** (`PolicyRounding.dfy`): half-even rounding to six decimals, per entry and per batch.

Methods follow the source's loops and are proved equal to specification functions or to stated properties; the
lemmas then prove what those specifications guarantee. `dafny verify dfyconfig.toml` checks everything. A `hide`
statement in a proof only keeps definitions the proof does not need away from the solver.

## What the proofs found

- `_escape` puts a backslash before a bar, but `_split_row` still splits there; it replaces newlines, but not the
  other characters `splitlines` breaks at; and the row shows the stripped prompt ID and timestamp while the hash
  covers the raw ones. On a verified ledger the chain survives an append if and only if the record is clean: no bar in
  any field, every printed field on one line, ID and timestamp printed as they were hashed
  (`LedgerIntegrity.AppendVerifiesIffClean`). One bar, one carriage return or one blank before the ID breaks a new
  ledger (`LedgerIntegrity.BarBreaksNewLedger`, `LedgerIntegrity.ReturnBreaksNewLedger`,
  `LedgerIntegrity.PaddedIdBreaksNewLedger`), and no later append mends it (`LedgerIntegrity.UncleanBreaksForGood`).
- An append goes to the end of the file. The readers see the record if and only if its fields stay on one line, the
  status section is the last section, and the file's last line is terminated or blank (`LedgerVisible.AppendSeenIff`).
  Without the final newline the row is glued to the one before it: the append reports success, the chain still
  verifies, and the record is lost (`LedgerIntegrity.MissingNewlineLosesRecord`).
- The notes and exception texts of a run go through the same printer. After a run whose records are all clean the next
  run is admitted; after one unclean record no run is until a repair (`EngineLedger.NextRunIff`,
  `EngineLedger.UncleanRunBlocks`).
- The rework loop only logs a lost SUCCESS row. After a complete run the next one appends nothing if and only if no
  SUCCESS row was lost; otherwise it redoes finished prompts (`ExecutorRerun.RerunIsNoOpIff`,
  `ExecutorRerun.LostReworkIsRepeated`).
- The hash covers three of the nine content cells, ID, status and timestamp. Subsystem, attempt, files, results,
  reason and notes can be changed without any effect on verification (`LedgerChain.OtherCellsUnprotected`).
- `repair_hash_chain` leaves a ledger that verifies exactly when no body row has fewer than nine cells
  (`LedgerRepair.RepairVerifiesIff`, `LedgerRepairWitness.ShortRowStaysBroken`), and is idempotent exactly when no
  full row has the prompt ID `Prompt ID`, whose repaired row is taken for a table header the next time
  (`LedgerRepair.RepairIdempotentIff`, `LedgerRepairWitness.TitledRowRepairedTwice`). A prompt's entry is lost in a
  repair exactly when only header-like or divider-like rows carry it (`LedgerRepair.EntryLostIff`,
  `LedgerRepair.TitledEntryLost`).
- The credit service checks no signs. A step leaves `0 <= reserved <= balance` in force for good, whatever is
  confirmed or released after it, exactly when a reservation is not negative and an addition takes no more than is
  available (`CreditBooks.SolventForGoodIff`). A negative reservation can look sound at first and turns reserved
  negative once the others are released (`CreditBooks.NegativeReservationLooksSound`); confirming one creates credits
  (`CreditBooks.NegativeReservationMintsCredits`). The comment at `backend/financeops/db/models/credits.py:36` calls
  the balance the total ever added; the code makes it the total added minus what was confirmed
  (`CreditBooks.BalanceIsAddedMinusConfirmed`).
- A released reservation is logged with direction credit although it gives nothing back, so summing the log by
  direction overstates the balance by everything released (`CreditBooks.DirectionAloneOverstates`).
- A failed probe of a half-open circuit neither reopens it nor extends the ten minutes
  (`CircuitBreaker.OpenForTenMinutes`).
- After a fallback the browser shows the failed models' partial output in front of the answer, and it shows no error
  at all when the last exception's text is empty (`StreamingAi.CleanAnswerIff`, `StreamingAi.ScreenShowsTheAttempts`).
- An amount with a seventh decimal can grow although the elimination rate is zero
  (`PolicyRounding.SeventhDecimalGrows`, `PolicyRounding.NeverGrowsIff`).
- A cut prompt fits its budget when the kept part has no more tokens per character than the whole, for every
  tokenizer, and only if it barely has more (`TokenBudgets.CutFits`, `TokenBudgets.CutFitsIff`). For every model there
  is a prompt, with a tokenizer that reads some letters one by one, of which the cut keeps three eighths more tokens
  than are available (`TokenBudgets.EveryModelOverflows`). With the built-in counter the cut fills the budget exactly
  (`TokenBudgets.QuarterLengthFits`).
- The circuit breaker reads the wall clock. Its pruned failures agree with the full history if and only if no failure
  that was five minutes old at some later failure is less than that again at a still later one, which takes a clock
  that is set back (`CircuitBreaker.RefinesIff`, `CircuitBreaker.ClockSetBack`).
- `verify_tenant_chain` says it loads rows by creation time; the query has no order, and the proofs show none is
  needed (`AuditChain.WrittenHistoryAccepted`).
- The near-date pass discards every reference it refuses, so an early transaction can cost a later one its match,
  unless the descriptions save it in the third pass (`BankReconWitness.EarlyRefusalCostsMatch`,
  `BankReconWitness.NearMatchMissed`). A transaction and a candidate of one amount are left over only if the candidate
  is too far from that transaction or from one of the amount before it (`BankReconProps.NearMissNeedsRefusal`).
- Ledger references are `jv_id:line_number` without the voucher's version, so two candidates can share one. The run
  then keeps one candidate of each reference while the indexes list the others' keys: every line ends in exactly one
  item if and only if no two share a reference (`BankReconSpec.ExactlyOnceIff`). A transaction that matches the first
  of two versions exactly is paired with the second, 100 with 250 for instance (`BankReconWitness.LaterVersionTaken`,
  `BankReconWitness.RepeatedReferenceMispairs`).

## Model

| member | source | states |
|---|---|---|
| DependencyGraphs.DependencyGraph.TopologicalOrder | backend/financeops/prompt_engine/dependency_graph.py:13-38 | succeeds if and only if IDs are unique, no dependency is missing and the relation has no cycle (self-loops included); the result is a permutation with dependencies first, roots alphabetically, then whoever's last dependency comes earlier, and in catalog order where that is the same |
| DependencyGraphs.StuckMeansCyclic | backend/financeops/prompt_engine/dependency_graph.py:27-36 | a nonempty set of prompts each waiting for one of the set contains a closed walk of dependencies |
| DependencyGraphs.OrderedMeansAcyclic | backend/financeops/prompt_engine/dependency_graph.py:35-38 | a catalog that has a topological order has no cycle |
| DependencyGraphs.QueueStep | backend/financeops/prompt_engine/dependency_graph.py:27-33 | emitting a ready ID and releasing its children keeps: indegree counts unemitted dependencies with repetition, and the queue is exactly what is ready |
| DependencyGraphs.FifoStep | backend/financeops/prompt_engine/dependency_graph.py:27-33 | emitting an ID and appending what it releases keeps first in, first out, and catalog order among those released together |
| DependencyGraphs.FullOrderIsTopological | backend/financeops/prompt_engine/dependency_graph.py:38 | mapping a complete emission back to prompts gives a topological order of the catalog |
| DependencyGraphs.RootsComeFirst | backend/financeops/prompt_engine/dependency_graph.py:24 | dependency-free prompts come before all others, alphabetically |
| DependencyGraphs.DependencyGraph.MissingEdges | backend/financeops/prompt_engine/dependency_graph.py:40-49 | lists exactly the dependencies outside the catalog |
| LedgerRow.RowRoundTrip | backend/financeops/prompt_engine/ledger_updater.py:266-284 | parsing a printed row gives back trimmed cells if and only if no cell holds a bar; otherwise there are too many cells |
| LedgerRow.JoinedRowRoundTrip | backend/financeops/prompt_engine/ledger_updater.py:278-288 | the same for all cells through the escaping printer: the backslash does not protect a bar |
| LedgerRow.EscapeFacts | backend/financeops/prompt_engine/ledger_updater.py:278-280 | escaping keeps bars, removes newlines, trims, and leaves clean cells alone |
| LedgerChain.PayloadInjective | backend/financeops/prompt_engine/ledger_updater.py:309-318 | the joined hash payload determines ID, status, timestamp and previous hash when none holds a bar |
| LedgerChain.TamperEvidence | backend/financeops/prompt_engine/ledger_updater.py:53-105 | two verified chains that end in the same hash agree row by row unless two payloads collide |
| LedgerChain.OtherCellsUnprotected | backend/financeops/prompt_engine/ledger_updater.py:53-105 | changing only cells outside ID, status, timestamp and the two hashes changes nothing about verification |
| LedgerUpdater.FilesTamperEvident | backend/financeops/prompt_engine/ledger_updater.py:53-105 | the same for two ledger files as parsed, where bar-freeness of cells is proved rather than assumed |
| LedgerUpdater.PromptLedgerUpdater.VerifyHashChain | backend/financeops/prompt_engine/ledger_updater.py:53-105 | succeeds exactly on a linked chain; a failure names the first broken line |
| LedgerUpdater.PromptLedgerUpdater.LatestStatusMap | backend/financeops/prompt_engine/ledger_updater.py:166-191 | the last parsable status of every nonempty prompt ID |
| LedgerUpdater.PromptLedgerUpdater.LastEntryHash | backend/financeops/prompt_engine/ledger_updater.py:291-307 | the backwards scan finds the hash that verification ends on |
| LedgerUpdater.PromptLedgerUpdater.AppendExecution | backend/financeops/prompt_engine/ledger_updater.py:42-51 | the file's text after an append is the set-up text plus one row carrying the last hash; where a bar-free record is seen, each of the eleven columns reads back as the record's own field |
| LedgerReadBack.RecordReadsBack | backend/financeops/prompt_engine/ledger_updater.py:255-276 | the rows before stay, and the new one shows ID, subsystem, timestamp, status, the attempt as a decimal, files, results, reason, notes, the previous hash and the hash of ID, status, timestamp and previous hash |
| LedgerReadBack.IntReadsBack | backend/financeops/prompt_engine/ledger_updater.py:269 | the printed attempt number reads back as the number |
| LedgerUpdater.PromptLedgerUpdater.EnsureStatusSection | backend/financeops/prompt_engine/ledger_updater.py:193-234 | the set-up loop computes the text EnsureText describes, whose lines SetupKeepsLines gives |
| LedgerUpdater.PromptLedgerUpdater.RepairHashChain | backend/financeops/prompt_engine/ledger_updater.py:107-164 | the repair loop computes the text RepairText describes, and every line of the file is kept or rewritten as RepairKeepsLines says |
| LedgerLinesKept.RepairKeepsLines | backend/financeops/prompt_engine/ledger_updater.py:117-164 | for every text, line by line: blank lines, prose and short rows stay at their place, header-like and divider-like lines become the two fixed ones, full rows keep nine cells and hash themselves, and only a missing header is added |
| LedgerLinesKept.SetupKeepsLines | backend/financeops/prompt_engine/ledger_updater.py:203-234 | for every text: without the heading a section is added behind the text; with it nothing changes but the first table's header and divider lines, when they are not as they should be |
| LedgerUpdater.ExtractStatusSection | backend/financeops/prompt_engine/ledger_updater.py:236-252 | the lines between the first heading and the next second-level heading |
| LedgerUpdater.LocateStatusSection | backend/financeops/prompt_engine/ledger_updater.py:320-334 | agrees with the section reader on where the section starts and ends |
| LedgerSetup.EnsureIdempotent | backend/financeops/prompt_engine/ledger_updater.py:193-234 | setting up twice is setting up once, for every file |
| LedgerSetup.EnsureMakesFresh | backend/financeops/prompt_engine/ledger_updater.py:193-211 | a missing file or one without the heading becomes a ready, empty ledger |
| LedgerAppend.AppendExtends | backend/financeops/prompt_engine/ledger_updater.py:42-51 | on a ready verified ledger a clean record (no bars, printed on one line, ID and timestamp printed as hashed) becomes the last row, the chain still verifies and the status map changes only at its prompt |
| LedgerIntegrity.AppendVerifiesIffClean | backend/financeops/prompt_engine/ledger_updater.py:42-105 | on a verified ledger open for appends, the chain verifies after an append if and only if the record is clean |
| LedgerIntegrity.UncleanBreaksForGood | backend/financeops/prompt_engine/ledger_updater.py:42-105 | on a missing file or a sound one with its table in place, the first unclean record of any history of appends breaks the chain, and no record after it mends it |
| LedgerVisible.AppendSeenIff | backend/financeops/prompt_engine/ledger_updater.py:42-51 | for every file and record: the readers see the record as one more row exactly when its fields stay on one line, the status section is the last one and the last line is terminated or blank |
| LedgerIntegrity.MissingNewlineLosesRecord | backend/financeops/prompt_engine/ledger_updater.py:42-51 | a file without its final newline: the append loses the record and the chain still verifies |
| LedgerAppend.HistoryVerifies | backend/financeops/prompt_engine/ledger_updater.py:42-105 | every history of clean appends to a sound or missing file verifies, has one row per record and reads back the last status of each prompt |
| LedgerIntegrity.BarBreaksNewLedger | backend/financeops/prompt_engine/ledger_updater.py:278-284 | a concrete record with one bar whose append makes a new ledger fail verification |
| LedgerIntegrity.ReturnBreaksNewLedger | backend/financeops/prompt_engine/ledger_updater.py:278-280 | the same with one carriage return |
| LedgerIntegrity.PaddedIdBreaksNewLedger | backend/financeops/prompt_engine/ledger_updater.py:278-318 | the same with one blank before the prompt ID |
| LedgerRepair.RepairVerifiesIff | backend/financeops/prompt_engine/ledger_updater.py:107-164 | a repaired ledger verifies exactly when no body row has fewer than nine cells |
| LedgerRepair.RepairedLines | backend/financeops/prompt_engine/ledger_updater.py:162-164 | every line outside the section survives the repair unchanged and in place |
| LedgerRepair.RepairKeepsContent | backend/financeops/prompt_engine/ledger_updater.py:124-155 | for every text: the body rows keep their order and first nine cells, and the latest statuses read afterwards are those of the body rows |
| LedgerRepair.EntryLostIff | backend/financeops/prompt_engine/ledger_updater.py:124-155 | a prompt's entry is lost exactly when every row that carries it looks like the table's header or divider; no entry appears |
| LedgerRepair.TitledEntryLost | backend/financeops/prompt_engine/ledger_updater.py:127-131 | a concrete row with the prompt ID "Prompt ID" whose status the repair loses |
| LedgerRepairWitness.ShortRowStaysBroken | backend/financeops/prompt_engine/ledger_updater.py:132-155 | a concrete body row of eight cells after whose repair the chain does not verify |
| LedgerRepairWitness.TitledRowRepairedTwice | backend/financeops/prompt_engine/ledger_updater.py:124-164 | a concrete full row with the prompt ID "Prompt ID" that a second repair replaces |
| LedgerRepair.RepairIdempotentIff | backend/financeops/prompt_engine/ledger_updater.py:107-164 | repairing twice is repairing once exactly when no full row has the prompt ID "Prompt ID" |
| Executor.PromptExecutionEngine.RunUnlocked | backend/financeops/prompt_engine/executor.py:122-235 | admitted exactly when the ledger file verifies, or verifies after an allowed repair, and the catalog is orderable; then the state and the file are those of the run function, the dependency gate never failed and every launch had all dependencies successful; otherwise nothing is appended |
| EngineLedger.AdmittedIff | backend/financeops/prompt_engine/executor.py:122-148 | what the integrity check with and without repair lets through |
| Executor.PromptExecutionEngine.RunOrder | backend/financeops/prompt_engine/executor.py:149-235 | the loop with its breaks ends in the state the run function describes |
| Executor.PromptExecutionEngine.ExecuteTransaction | backend/financeops/prompt_engine/execution_transaction.py:56-217 | SUCCESS exactly when sanitizer, firewall, dependencies, health, baseline, both guards, completion and pytest are good, no phase raised and the row landed; REWORK_REQUIRED exactly when only completion or pytest is not; the callback is launched exactly past phases 2 to 5 |
| Executor.PromptExecutionEngine.Finalize | backend/financeops/prompt_engine/execution_transaction.py:219-259 | a failed ledger write turns any status into FAIL |
| Executor.PromptExecutionEngine.RunReworkLoop | backend/financeops/prompt_engine/executor.py:237-285 | the bounded attempts end in success, hard failure, an exception with or without a callback, or the exhausted FAIL row |
| Executor.PromptExecutionEngine.RunAttempt | backend/financeops/prompt_engine/rework_engine.py:67-208 | SUCCESS exactly with a callback, both guards, completion and pytest good; FAIL exactly with a callback and a guard that is not; the row, also when the append is lost |
| EngineLedger.CleanRunRefines | backend/financeops/prompt_engine/executor.py:149-235 | if the records a run wrote are clean, the file it leaves is sound and its latest statuses are those of the run's rows |
| EngineLedger.NextRunIff | backend/financeops/prompt_engine/executor.py:122-235 | after a run with clean records that ended with every prompt successful, halted by the stop file or not, the next run, in any world, finds a verified file and leaves it as it is, launching nothing, exactly when no SUCCESS row was lost |
| EngineLedger.UncleanRunBlocks | backend/financeops/prompt_engine/executor.py:122-148 | on a missing file or a sound one with its table in place: one unclean record among those a run wrote, and the file no longer verifies |
| ExecutorProps.GateNeverFails | backend/financeops/prompt_engine/executor.py:160-226 | in every world the dependency check of phase 4 never fails and every launched prompt has all its dependencies successful |
| ExecutorProps.FailureStopsTheRun | backend/financeops/prompt_engine/executor.py:160-235 | if a run fails at a prompt, everything before it is SUCCESS and nothing after it was started, recorded or changed |
| ExecutorProps.OnlyEarlierTouched | backend/financeops/prompt_engine/executor.py:160-226 | rows, launches and status changes concern only the prompts reached |
| ExecutorProps.LedgerMatchesBooks | backend/financeops/prompt_engine/executor.py:151-226 | with every append on disk the engine's successes and details equal the ledger's latest statuses throughout |
| ExecutorProps.SuccessIsFinal | backend/financeops/prompt_engine/executor.py:160-165 | a prompt whose latest status is SUCCESS keeps it through every run, whatever appends are lost |
| ExecutorProps.NoWorkIff | backend/financeops/prompt_engine/executor.py:160-165 | a run appends nothing exactly when every prompt is already SUCCESS |
| ExecutorRerun.RerunIsNoOpIff | backend/financeops/prompt_engine/executor.py:149-235 | after a run in any world that ended with every prompt successful, halted or not, another run appends nothing, and then launches nothing and skips every prompt, exactly when no SUCCESS row was lost |
| ExecutorRerun.LostReworkIsRepeated | backend/financeops/prompt_engine/rework_engine.py:149-208 | a concrete world in which the SUCCESS row of a rework is lost: whatever happens in the next run, it works on the prompt again |
| ExecutorProps.BlockOfPrompt | backend/financeops/prompt_engine/executor.py:160-285 | the rows one run writes for a prompt: FAIL, or RUNNING and SUCCESS or FAIL, or RUNNING, REWORK_REQUIRED, at most the allowed attempts and the closing FAIL exactly when they are used up |
| ExecutorReasons.EveryRowJustified | backend/financeops/prompt_engine/execution_transaction.py:56-217 | every row a run adds has its reason in the world: each SUCCESS was launched with its dependencies met and passed every check and its own attempt, each REWORK_REQUIRED passed all but completion or pytest, each FAIL has a check, a guard or the last attempt behind it |
| ExecutorReasons.LaunchesCleared | backend/financeops/prompt_engine/executor.py:168-197 | nothing is launched without approval or past a failed check |
| ExecutorReasons.UnapprovedStops | backend/financeops/prompt_engine/executor.py:168-190 | a high-risk prompt without approval ends the run as the failed prompt, launching nothing |
| ExecutorReasons.StopFileHalts | backend/financeops/prompt_engine/executor.py:223-226 | after a prompt that was worked on the stop file alone halts the run, and it ends there |
| ExecutorReasons.CountersAddUp | backend/financeops/prompt_engine/executor.py:153-235 | executed counts the prompts that became successes in the run, and skipped and executed add up to the prompts dealt with |
| BankRecon.RunBankReconciliation | backend/financeops/services/bank_recon_service.py:340-451 | for every list of candidates the run delivers what the three passes pair and leave; each item names loaded data that pass the test of its kind and carries their amount, each counter is the number of items of its kind, and the net difference is what the two kinds of leftover items amount to; with distinct references nothing exact or fuzzy is left |
| BankReconReport.ItemsJustified | backend/financeops/services/bank_recon_service.py:368-448 | matched, near, fuzzy, bank-only and ledger-only items each say something true of the transactions and lines loaded, tests written out |
| BankReconReport.SummaryTallies | backend/financeops/services/bank_recon_service.py:384-448 | the summary tallies the items |
| BankReconProps.ReconcileDelivers | backend/financeops/services/bank_recon_service.py:361-451 | repeated references or not: transactions and surviving candidates are partitioned, pairs were found by their test, no exact or fuzzy pair is left, and a near pair only after a refusal |
| BankReconProps.ReconcileDistinct | backend/financeops/services/bank_recon_service.py:361-451 | with distinct references each pair passes its own test and nothing that would is left |
| BankRecon.MatchPool.TakeFromExactIndex | backend/financeops/services/bank_recon_service.py:732-741 | takes the first listed candidate of the key that is still open, or none is; the list keeps what comes after it |
| BankRecon.MatchPool.RemoveFromNearIndex | backend/financeops/services/bank_recon_service.py:744-753 | removes exactly the candidate's reference from its amount's list |
| BankRecon.MatchPool.FindNearMatch | backend/financeops/services/bank_recon_service.py:756-769 | takes the first listed candidate that is open and within three days, dropping what is listed before it, or finds none and leaves the list empty |
| BankRecon.MatchPool.FindFuzzyMatch | backend/financeops/services/bank_recon_service.py:772-791 | returns the first open candidate in load order that passes the fuzzy test, or none does |
| BankRecon.BuildGlExactIndex | backend/financeops/services/bank_recon_service.py:715-722 | every key lists its references in load order |
| BankRecon.BuildGlNearIndex | backend/financeops/services/bank_recon_service.py:725-729 | every amount lists its references in load order |
| BankReconSpec.ExactCounts | backend/financeops/services/bank_recon_service.py:368-385 | for every amount and date the exact pass makes min(transactions, candidates) pairs |
| BankReconSpec.ExactIsMaximum | backend/financeops/services/bank_recon_service.py:368-385 | no set of exact pairs over the same data is larger |
| BankReconProps.NearMissNeedsRefusal | backend/financeops/services/bank_recon_service.py:387-408 | for every run: if a candidate is within three days of b and of all transactions of its amount before b, the near pass does not leave both it and b behind |
| BankReconWitness.EarlyRefusalCostsMatch | backend/financeops/services/bank_recon_service.py:387-420 | whenever a first transaction is too far from the only candidate of its amount, a second one that is near is left over as well, if the third pass brings neither together with it |
| BankReconWitness.NearMatchMissed | backend/financeops/services/bank_recon_service.py:756-791 | two wires and one line where the first wire's refusal costs the second its match, when their texts are not similar |
| BankReconSpec.NetDifferenceExact | backend/financeops/services/bank_recon_service.py:429-451 | books' difference equals the reported net difference plus the gaps of the fuzzy pairs |
| BankReconSpec.NetDifferenceBound | backend/financeops/services/bank_recon_service.py:410-451 | the report is off by less than 0.0001 of the fuzzily matched ledger amounts, and exact without fuzzy pairs |
| BankReconSpec.ExactlyOnceIff | backend/financeops/services/bank_recon_service.py:361-451 | the items name every transaction exactly as often as it was loaded, and every loaded reference so if and only if no two candidates share one |
| BankReconWitness.LaterVersionTaken | backend/financeops/services/bank_recon_service.py:361-385 | of two lines with one reference, the transaction that matches the first exactly is paired with the second |
| BankReconWitness.RepeatedReferenceMispairs | backend/financeops/services/bank_recon_service.py:361-451 | two versions of one line: a deposit is matched "exactly" with the other amount, its own line is in no item, and the net difference is zero |
| BankReconSpec.WindowLosesNothing | backend/financeops/services/bank_recon_service.py:351-359 | no ledger line that could pass any of the three tests lies outside the loaded dates |
| CreditServices.CreditService.ReserveCredits | backend/financeops/services/credit_service.py:62-155 | is the Reserve step; succeeds exactly when balance - reserved is at least the amount, adding one pending reservation and that much to reserved, for this tenant only |
| CreditServices.CreditService.ConfirmCredits | backend/financeops/services/credit_service.py:158-260 | is the Confirm step; succeeds exactly when the reservation is pending for a tenant with a row, settles just that reservation, takes its amount from balance and reserved, and logs the debit; the row is never missing after a run |
| CreditServices.CreditService.ReleaseCredits | backend/financeops/services/credit_service.py:263-371 | is the Release step; succeeds under the same condition, takes the amount from reserved only and logs the release |
| CreditServices.CreditService.AddCredits | backend/financeops/services/credit_service.py:374-483 | is the Add step; adds the amount to the balance, for this tenant only, and logs it |
| CreditServices.CreditService.CheckBalance | backend/financeops/services/credit_service.py:52-59 | answers whether a reservation of that amount would be accepted, and moves nothing |
| CreditBooks.EveryRunIsSane | backend/financeops/services/credit_service.py:62-483 | in every interleaving of admissible steps, for every tenant, reserved is what is pending and 0 <= reserved <= balance |
| CreditBooks.SolventForGoodIff | backend/financeops/services/credit_service.py:104-371 | on sane books: after the step reserved is what is pending and 0 <= reserved <= balance whatever is confirmed or released later, exactly when the amount passes the check the service leaves out |
| CreditBooks.NegativeReservationBreaks | backend/financeops/services/credit_service.py:104-315 | after any negative reservation there are releases after which reserved is negative |
| CreditBooks.NegativeReservationLooksSound | backend/financeops/services/credit_service.py:104-315 | a concrete negative reservation that is accepted and leaves a sound row, until the other reservation is released |
| CreditBooks.EveryRunIsBooked | backend/financeops/services/credit_service.py:193-432 | after every run, whatever the amounts: the log replays to the balances, a reservation has one transaction exactly when it is no longer pending, and log and reservations agree |
| CreditBooks.SettledForGood | backend/financeops/services/credit_service.py:167-177 | once settled a reservation never changes, and every later confirm or release is refused |
| CreditBooks.PendingCanBeSettled | backend/financeops/services/credit_service.py:158-371 | after every run, whatever the amounts, a pending reservation's tenant has a row, and confirming or releasing it settles it and moves the row by its amount |
| CreditBooks.ReservedIff | backend/financeops/services/credit_service.py:95-125 | a reservation is added exactly when that much is available |
| CreditBooks.OthersUntouched | backend/financeops/services/credit_service.py:62-483 | a step of one tenant changes no other tenant's row, reservations or log |
| CreditBooks.BalanceIsAddedMinusConfirmed | backend/financeops/services/credit_service.py:185-432 | the balance is the credits added minus the reservations confirmed |
| CreditBooks.EntriesJoin | backend/financeops/services/credit_service.py:193-432 | each entry starts from the balance the tenant's previous entry ended with, the first from zero |
| CreditBooks.DirectionAloneOverstates | backend/financeops/services/credit_service.py:299-323 | summing by direction overstates the balance by exactly what was released |
| CreditBooks.NegativeReservationMintsCredits | backend/financeops/services/credit_service.py:104-188 | a concrete negative reservation that ends in a balance nobody added |
| ChainHash.VerifyChain | backend/financeops/utils/chain_hash.py:37-88 | accepts exactly the correctly linked and hashed chains, else names the first break |
| AuditChain.VerifyTenantChain | backend/financeops/services/audit_service.py:89-144 | accepts exactly when the rows have a linear order that is a valid chain; otherwise reports where that one order breaks or, when there is none, the length of the longest prefix that can be rebuilt |
| AuditChain.FollowLinks | backend/financeops/services/audit_service.py:121-142 | the reconstruction completes exactly when a linear order exists, and returns it |
| AuditChain.LinearOrderUnique | backend/financeops/services/audit_service.py:121-142 | there is at most one linear order of the rows |
| AuditChain.PreviousHashIsLast | backend/financeops/utils/chain_hash.py:91-134 | in whatever order the table stores a chain, the lock query finds its last hash |
| ChainHash.NewestIsLatest | backend/financeops/utils/chain_hash.py:91-134 | also in a forked chain the lock query's row is the latest, and among the latest the one with the greatest hash |
| AuditChain.AppendExtendsChain | backend/financeops/services/audit_service.py:48-76 | logging under the lock extends a written chain |
| AuditChain.HistoryIsWritten | backend/financeops/services/audit_service.py:48-78 | after any history of many tenants every tenant's rows form a written chain |
| AuditChain.WrittenHistoryAccepted | backend/financeops/services/audit_service.py:23-144 | any logged history is accepted in whatever order its rows are returned |
| AuditChain.AuditTrail.LogAction | backend/financeops/services/audit_service.py:48-86 | the table grows by one row with the action's data and time that continues the tenant's chain |
| SseParser.ParseSseChunks | frontend/hooks/useStreamingAI.ts:13-46 | the shrinking loop computes the parse of the buffer |
| SseParser.ParseInTwo | frontend/hooks/useStreamingAI.ts:13-99 | cutting the stream anywhere changes neither the events nor the remainder |
| SseParser.FramesRoundTrip | backend/financeops/llm/streaming.py:15-16 | any concatenation of printed frames parses to exactly the printed payloads with nothing left over |
| SseParser.LineIsRead | frontend/hooks/useStreamingAI.ts:26-39 | a line without the prefix or with blanks behind it is passed over, a decodable one is the event, an undecodable one is the error event |
| SseParser.RemainderHasNoBreak | frontend/hooks/useStreamingAI.ts:20-24 | no complete event is ever left in the remainder |
| StreamingAi.StreamingHook.Stream | frontend/hooks/useStreamingAI.ts:84-121 | what is shown depends on the text of the stream only, not on where the network cut it |
| StreamingAi.StreamLlmResponse | backend/financeops/llm/streaming.py:43-87 | the generator yields the frames of the chain: chunks as they come, then one done or one error |
| StreamingAi.ScreenShowsTheAttempts | backend/financeops/llm/streaming.py:43-87 | end to end: the browser shows everything said up to the first success, and an error exactly when all failed and the last message is not empty |
| StreamingAi.CleanAnswerIff | backend/financeops/llm/streaming.py:67-84 | the screen shows just the successful answer exactly when the models before it said nothing |
| StreamingAi.LastMessageShown | backend/financeops/llm/streaming.py:79-87 | when every model failed the screen shows the last model's message, or no error when it is empty |
| StreamingAi.OneFrameShown | frontend/hooks/useStreamingAI.ts:84-121 | what one frame shows, for every kind of payload: undecodable, null, error, done, chunk, and a chunk on a connection that breaks |
| CircuitBreaker.FailureRefines | backend/financeops/llm/circuit_breaker.py:30-37 | on a monotone clock the pruned failure list says the same as the full history |
| CircuitBreaker.OpensAtTheThird | backend/financeops/llm/circuit_breaker.py:30-42 | the circuit opens at the first failure since the last success that is the third within five minutes, and only then |
| CircuitBreaker.OpenForTenMinutes | backend/financeops/llm/circuit_breaker.py:44-50 | it is open for exactly ten minutes, and not open again before a success |
| CircuitBreaker.RefinesIff | backend/financeops/llm/circuit_breaker.py:30-42 | on any clock: the stored circuit agrees with the full history throughout if and only if no failure pruned at a later one is back in the window at a still later one |
| CircuitBreaker.StoredIff | backend/financeops/llm/circuit_breaker.py:30-42 | the same for the stored failures at one moment |
| CircuitBreaker.MonotoneNeverBack | backend/financeops/llm/circuit_breaker.py:30-33 | a clock that never goes back brings no failure back |
| CircuitBreaker.ClockSetBack | backend/financeops/llm/circuit_breaker.py:30-37 | a concrete clock on which the circuit stays closed although three failures are in the window |
| CircuitBreaker.CircuitState.RecordFailure | backend/financeops/llm/circuit_breaker.py:30-37 | the loop over the failures makes the step AfterFailure |
| Fallback.ExecuteWithFallback | backend/financeops/llm/fallback.py:151-211 | the first call in order that is not seen open and succeeds is the answer, with the content and model of its response, and its circuit is reset; nothing after it is called, every call is recorded; otherwise the error has one note per model, in order, saying whether its circuit was open or why its call failed |
| Fallback.CallsRefine | backend/financeops/llm/fallback.py:151-205 | over any number of calls the stored circuits agree with the full histories of all models |
| Fallback.SkippedIff | backend/financeops/llm/fallback.py:155-158 | a model is skipped exactly during the ten minutes after its third failure within five minutes |
| Fallback.NothingRecorded | backend/financeops/llm/circuit_breaker.py:72-87 | before anything happened, fresh circuits and empty histories agree, so the two rows above hold of whole deployments |
| TokenBudgets.QuarterLengthFits | backend/financeops/llm/token_manager.py:50-89 | with the built-in counter the result is a prefix, a cut prompt fills the available tokens exactly, and the whole fits exactly when the system prompt does |
| TokenBudgets.OwnLimitCounts | backend/financeops/llm/token_manager.py:53-54 | a known model's own limit less 4000 tokens is available, 28000 for an unknown model |
| TokenBudgets.CutFits | backend/financeops/llm/token_manager.py:55-71 | for every counter: the result is a prefix, nothing is cut that fits, and a cut prompt fits if the kept part has no more tokens per character than the whole, and only if it would have fewer with one character more |
| TokenBudgets.CutFitsIff | backend/financeops/llm/token_manager.py:61-70 | when the prompt has no more tokens than characters, the second condition is exact |
| TokenBudgets.UnevenTokensOverflow | backend/financeops/llm/token_manager.py:53-70 | for every limit that leaves room: a prompt whose cut keeps at least three eighths more tokens than are available, with a tokenizer positive on nonempty text |
| TokenBudgets.EveryModelOverflows | backend/financeops/llm/token_manager.py:6-70 | the same for every model with the service's own limits, where at least 28000 tokens are available |
| PolicyRounding.HalfEvenIff | backend/financeops/accounting_policy_engine/policy_service.py:72 | the rounded value is the nearest integer, or the even one of two |
| PolicyRounding.EliminationShrinks | backend/financeops/accounting_policy_engine/policy_service.py:69-74 | at a rate in [0,1] an amount keeps its sign or becomes zero and does not pass its own rounding |
| PolicyRounding.NeverGrowsIff | backend/financeops/accounting_policy_engine/policy_service.py:69-74 | an amount never grows at any such rate exactly when rounding does not make it grow; six-decimal amounts never do |
| PolicyRounding.SeventhDecimalGrows | backend/financeops/accounting_policy_engine/policy_service.py:69-74 | a concrete amount that grows at rate zero |
| PolicyRounding.EliminationTotal | backend/financeops/accounting_policy_engine/policy_service.py:63-93 | the batch total is (1 - rate) times the total before, within half a unit of the sixth decimal per entry |
| PolicyRounding.MinorityAggregate | backend/financeops/accounting_policy_engine/policy_service.py:134-167 | the aggregate is the multiplier times the total before, within the same bound |
| PolicyRounding.ReclassificationTotal | backend/financeops/accounting_policy_engine/policy_service.py:217-239 | revenue rows lose their share within the bound, all other rows stay exactly as they are |
| PolicyRounding.ResultsOnGrid | backend/financeops/accounting_policy_engine/policy_service.py:69-239 | whatever is written has six decimals, and a row that is not reclassified is only rounded |
| PolicyRounding.ApplyIntercompanyElimination | backend/financeops/accounting_policy_engine/policy_service.py:63-93 | the loop's amounts, adjustments and the positions that changed |
| PolicyRounding.ApplyMinorityInterest | backend/financeops/accounting_policy_engine/policy_service.py:134-167 | the loop's amounts, and the aggregate equal to their exact sum |
| PolicyRounding.ApplyRevenueReclassification | backend/financeops/accounting_policy_engine/policy_service.py:217-239 | the loop's amounts, for revenue rows and for all others |

## Left out

- LedgerUpdater.PromptLedgerUpdater.AppendExecution: I/O errors of the file are not modelled here; the engine's `World` decides whether an append reaches the disk, and a lost one leaves the file as it was (no partial writes). Newline translation on reading and writing is not modelled.
- LedgerIntegrity.AppendVerifiesIffClean: asks that no text of the record quotes the previous hash, which could verify by accident, and that the record's own two payloads do not collide.
- LedgerIntegrity.UncleanBreaksForGood: asks the same of the first unclean record, and a file that is missing or has its table header and divider in place; a section without a table, which only an editor leaves, is not covered. EngineLedger.UncleanRunBlocks likewise.
- LedgerIntegrity.PaddedIdBreaksNewLedger: for hashes under which the raw and the stripped payload do not collide.
- Executor.PromptExecutionEngine.ExecuteTransaction: the snapshot taken before the `try` is assumed not to raise; the texts of a record are whatever the `World` answers, and durations are not modelled.
- Executor.PromptExecutionEngine.RunUnlocked: file locks, the catalog loader, and a file that others write during the run.
- DependencyGraphs.DependencyGraph.MissingEdges: the text and sorting of the error message.
- BankRecon.RunBankReconciliation: the SQL loaders, and writing the items with their own chain hashes. Division of amounts is exact.
- BankReconProps.NearMissNeedsRefusal: gives a necessary condition for a missed near match; which pairs are missed depends on the order of all transactions and candidates of the amount.
- BankReconSpec.ExactCounts: and ExactIsMaximum, for distinct references; with repeated ones ReconcileDelivers says what holds instead.
- CreditServices.CreditService.ReserveCredits: the 30-minute expiry is only stored, and rounding to the column's six decimals is not modelled.
- CreditServices.CreditService.AddCredits: the chain hashes of the transaction rows; AuditChain proves that discipline for the audit trail.
- AuditChain.VerifyTenantChain: canonical JSON is a function parameter; collision freedom is asked of the rows' payloads only.
- StreamingAi.StreamingHook.Stream: UTF-8 decoding, fetch, session and HTTP errors before the body; the decoder function stands for the JSON library.
- StreamingAi.StreamLlmResponse: injection scanning, masking and provider construction.
- CircuitBreaker.FailureRefines: the Redis expiry after twenty minutes and lost Redis writes.
- Fallback.ExecuteWithFallback: how the provider registry chooses the chain, retries inside one call, durations.
- TokenBudgets.QuarterLengthFits: the truncation percentage, and the floating-point quotient, which is taken exactly.
- PolicyRounding.EliminationTotal: policy selection, validation, the sorting of rows (totals do not depend on it) and the 28-digit decimal context.
- File locks, subprocesses, repository snapshots, database sessions, HTTP routes, the user interface and the other FinanceOps engines: outside the model.
