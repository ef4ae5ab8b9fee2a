# Verified model of the tooling and data cores

Dafny proofs about the parts of the repository whose behaviour spans many calls, actors or orders: the device lock,
the plan auditor, the recipe validator, the CSV pair, the maintenance window, the publish queue, the two even splits,
the layout flattener, the source archive and the canonical UI tree.

`dafny verify dfyconfig.toml` checks everything.

## How the project is laid out

| files | subject |
|---|---|
| `DeviceLock`, `DeviceLockRuns`, `DeviceLockLaws` | `DeviceLockStore` with its three tables as fields; each method is one transaction whose contract gives the whole new state. The runs module is about arbitrary command lists of any actors; the laws spell out each command |
| `DependencyGraph`, `PlanGuard`, `PlanTopology`, `PlanAudit`, `PlanPaths`, `PlanLaws` | graph theory; reading the edges; Kahn's queue with depths and parents; listing order, the two graphs of an audit, declared resources; the path comparison against lists of names; the plan in its own fields |
| `RecipeGraph`, `RecipeTraps`, `RecipeListing`, `RecipeValidator` | the memoised terminal search; exactly when its shared memo is exact, for all listings and for a given one; the passes and what acceptance guarantees for every walk |
| `Csv`, `CsvPlain` | the writer and the scanning parser over UTF-16 code units; texts as other programs write them |
| `WindowRecords`, `WindowCourse`, `WindowStories`, `WindowLaws`, `MaintenanceWindow` | the records of a window, with the sender of every lock command and every device change; how far it comes, as decided by the turns; its whole result and trace as a function of its opening, and what follows; the same in the fields of the turns; the try/finally protocol over the lock store and the server's compare-and-set. Between any two steps other actors run any commands, and any step may fail, or take effect and lose its answer |
| `PublishQueue`, `PublishRuns`, `PublishLaws`, `PublishResponse`, `ResponseLaws`, `Distribution` | the retry record as two atomic steps around an await; all interleavings; the response check; both in the fields of inputs and responses; the two even splits |
| `Layout`, `LayoutLaws`, `SourceArchive`, `ArchiveLaws`, `CanonicalTree`, `TreeLaws` | flatten and rebuild; pruned walk against flat audit; text against ordered nodes; each in the fields of what it reads |
| `Common`, `Ordering`, `Text`, `StripLaws` | shared vocabulary |

The modules named `Laws` state what the definitions of the others come to, in terms that none of those definitions
share, so that a definition that drifts from its meaning fails a law.

Time is a whole number of microseconds and stored stamps are whole seconds. SHA-256, the fingerprint, the supply of
random ids, the archive policy, the bounds pattern and set iteration orders are parameters, and the results hold for
all of them under the conditions each lemma states. The random ids of a run are taken to be distinct version-4 UUIDs
as far as the run draws them (`FreshRun`).

## What the proofs show that the code does not say

- The shared memo of `can_reach_terminal` can hold a False for a state that can finish, so whether
  `LOOP_NON_TERMINATING` is reported can depend on set iteration order (`VerdictDependsOnSetOrder`). The answer is exact
  for every listing and order if and only if the graph has no trap, a state whose every way to a terminal leads back
  through the path by which the search first met it (`SharedMemoIsExactIffTrapFree`). For the states as a recipe lists
  them it is exact for every order if and only if no trap is open to that listing (`ReportsExactIffNoOpenTrap`).
  Acceptance is always safe: an unreported state can finish on any graph.
- `persistXianyuPublishQueue` awaits digests between reading and writing the record. Two overlapping calls for one scope
  and input can both succeed with different queue ids (`OverlapBreaksIdentity`). Records are write-once, and retries
  identical, exactly when no creating call commits over a record that appeared during its await (`PermanentIffNoClash`,
  `RetriesIdenticalIffNoClash`), which is exactly when no two creating calls of one key overlap and both keep their write
  (`NoClashIffNoOverlap`). Waiting for one call before starting the next for the same key is enough
  (`OneAtATimeNeverClashes`).
- `acquire_lock` of the installer saves a private record after the store has committed. A granted acquire gets a release
  attempt if and only if neither its answer nor that record is lost (`AttemptIffAnswerKept`). Otherwise the lock stays
  until someone else ends it (`MislaidLockStays`), and `LostAnswerExample` is a whole window that does so.
- The clean-up promise of the window is about acknowledged prepares. A prepare that takes effect is acknowledged, and
  ended or cleaned up after, if and only if its turn does not lose the answer (`PrepareIsEndedIffAnswerKept`). Otherwise
  the device is left to others, and no cleanup failure is reported (`LostPrepareStays`); `LostPrepareExample` is a whole
  window that ends this way.
- The canonical text is independent of listing order exactly when nodes sharing depth and index are rendered alike
  (`OrderFreeIffKeysTellText`). A boolean and the string it is rendered as cannot be told apart in the text
  (`BooleanLooksLikeString`).
- `path_overlap` compares text. It never misses a path that two plain patterns share, that is, patterns without empty or
  `.` segments in the compared text (`OverlapIsSound`). A pattern that is not plain always shares some path with a plain
  literal without overlapping it (`SafeIffPlain`): `./a` and `a` are one path and do not overlap (`DotIsMissed`), and
  `audit` admits both.
- A break or release is allowed on a stale lock, a renew is not, and a renew may shorten the expiry (`RenewMayShorten`);
  stale locks still refuse every acquire.

## Model

| member | source | states |
|---|---|---|
| `DeviceLock.DeviceLockStore.AllocateFencing` | scripts/device_lock.py:551-567 | the first token of a serial is the counter's starting value, and the counter is left one above the token handed out; no other serial's counter moves |
| `DeviceLock.DeviceLockStore.Audit` | scripts/device_lock.py:526-549 | one row is appended, with the moment cut to whole seconds; nothing else changes |
| `DeviceLock.DeviceLockStore.RequireOwner` | scripts/device_lock.py:731-754 | no row, wrong fencing and wrong token hash are refused in that order with their exit codes; otherwise the row itself is returned |
| `DeviceLock.DeviceLockStore.AcquireLock` | scripts/device_lock.py:642-729 | the three tables and the reply after an acquire, for bad arguments, a taken serial (held or stale) and a free one |
| `DeviceLock.DeviceLockStore.RenewLock` | scripts/device_lock.py:756-814 | the three tables and the reply after a renew; every refusal leaves all tables as they were |
| `DeviceLock.DeviceLockStore.ReleaseLock` | scripts/device_lock.py:816-858 | the three tables and the reply after a release; a stale lock can still be released by its owner |
| `DeviceLock.DeviceLockStore.BreakStaleLock` | scripts/device_lock.py:860-930 | the three tables and the reply after a break; it needs the exact fencing token and a stale row, no owner token |
| `DeviceLockLaws.WellFormedLaw` | scripts/device_lock.py:127-168 | the argument checks in the characters of the arguments: serial, names, reason, ttl and fencing token |
| `DeviceLockLaws.AcquireLaw` | scripts/device_lock.py:642-729 | an acquire is granted if and only if it is well formed and the serial has no row; then every field of the row, the audit row and the reply, and otherwise the exit code and the audited rejection |
| `DeviceLockLaws.RenewLaw` | scripts/device_lock.py:756-814 | a renew is answered with an extension if and only if it is well formed, the fencing token and the hash of the owner token are those of the live row, and the moment is before its expiry; then every field, and otherwise the exit code |
| `DeviceLockLaws.ReleaseLaw` | scripts/device_lock.py:816-858 | a release succeeds if and only if it is well formed and both tokens are those of the live row, stale or not; then every field, and otherwise the exit code |
| `DeviceLockLaws.BreakLaw` | scripts/device_lock.py:860-930 | a break succeeds if and only if it is well formed, names the fencing token of the live row and comes at or after its expiry; then every field, and otherwise the exit code |
| `DeviceLockLaws.OwnerCanRenew` | scripts/device_lock.py:756-814 | before expiry the owner can move it to any ttl within the limits from now |
| `DeviceLockRuns.AuditRebuildsLocks` | scripts/device_lock.py:526-549 | after any run of any actors, replaying the audit rows alone gives the locks table exactly, token hashes aside |
| `DeviceLockRuns.RejectionsAreInert` | scripts/device_lock.py:663-684 | dropping every rejected-acquire row from any audit log leaves its replay unchanged |
| `DeviceLockRuns.RefusalLeavesOnlyARejection` | scripts/device_lock.py:663-684 | a refused command changes no lock and no counter, and writes a row exactly when it is a well-formed acquire of a taken serial |
| `DeviceLockRuns.GrantsAreAudited` | scripts/device_lock.py:686-729 | the tokens that acquires were answered with are, in order, the tokens of the audited acquires |
| `DeviceLockRuns.FencingHasNoGapsOrReuse` | scripts/device_lock.py:551-567 | over a whole run the granted tokens of a serial are 1, 2, 3, … n with no gap or reuse, its counter is n + 1, and a live row holds exactly the last one |
| `DeviceLockRuns.RunKeepsInvariant` | scripts/device_lock.py:551-567 | latest-token rows, tokens in order and replayable audit hold after every run that starts where they hold |
| `DeviceLockRuns.DeadTokenNeverWorksAgain` | scripts/device_lock.py:731-754 | after the release or break of the lock with token f, every later renew, release or break presenting f is refused, whatever owner token it shows |
| `DeviceLockRuns.LockEndsExactlyBy` | scripts/device_lock.py:777-930 | a live row disappears if and only if the command is a matching owner release or a break at or after expiry; nothing else touches it but a renew by its owner, which changes two timestamps only |
| `DeviceLockRuns.LiveThroughout` | scripts/device_lock.py:551-567 | a lock that is live at the end of a stretch and had been issued at its start was live at every moment between |
| `DeviceLockRuns.NoAcquireBetween` | scripts/device_lock.py:663-684 | between an acquire and a later successful use of its token every other acquire of the serial was refused, even once stale |
| `DeviceLockRuns.LockStaysUntilEnded` | scripts/device_lock.py:816-930 | a granted lock stays through any commands until a release or break of its own token succeeds |
| `DeviceLockRuns.GrantBeforeUse` | scripts/device_lock.py:551-567 | a token is used with success only after it was granted |
| `DeviceLockRuns.ExpiryIsFromLastExtension` | scripts/device_lock.py:777-800 | a live row's expiry comes from the last successful acquire or renew of its serial, also when that renew shortened it |
| `DeviceLockRuns.LockLastsItsTtl` | scripts/device_lock.py:105-110 | with expiry cut to seconds, a lock is HELD up to ttl − 1 s after its last extension and STALE from ttl on |
| `DeviceLockRuns.BreakAndRenewNeverOverlap` | scripts/device_lock.py:880-902 | no break succeeds within ttl − 1 s of the last extension and no renew succeeds from ttl on |
| `DeviceLockRuns.RenewMayShorten` | scripts/device_lock.py:777-800 | a run in which a successful renew moves the expiry to an earlier moment |
| `PlanGuard.CollectDeps` | scripts/plan_guard.py:24-29 | the dependency set over all fields, or an error for the first field that lists a dependency twice |
| `PlanGuard.ReadTask` | scripts/plan_guard.py:30-36 | for every iteration order of the set: in-degrees and children tabulate the graph with this task added, or a missing or self dependency of this task is named |
| `PlanGuard.ReadEdges` | scripts/plan_guard.py:17-36 | either the plan is well formed and the tables tabulate its dependency graph, or the error is a defect of the first task that has one |
| `PlanTopology.Relax` | scripts/plan_guard.py:44-50 | one children loop keeps depth, parent and in-degree right for one more placed node, and returns exactly the children that now wait for nothing, in id order |
| `PlanTopology.RunKahn` | scripts/plan_guard.py:37-50 | the queue loop ends with an order and tables that satisfy the whole invariant of the search |
| `PlanTopology.LeftOutNode` | scripts/plan_guard.py:51-54 | with the queue empty, a node still has in-degree if and only if it lies on or below a cycle |
| `PlanTopology.FullOrderIffAcyclic` | scripts/plan_guard.py:51-54 | the order is complete if and only if the graph has no cycle, and then it is a permutation of the ids with dependencies first |
| `PlanTopology.PlacedDepths` | scripts/plan_guard.py:44-47 | each depth is the length of the longest dependency path to its node, and each parent is the first deepest dependency in the order |
| `PlanTopology.LongestChain` | scripts/plan_guard.py:55-66 | the chain is a real dependency path of max depth + 1 nodes, ends in the first deepest node and follows first deepest dependencies |
| `PlanTopology.FirstGreatest` | scripts/plan_guard.py:55-55 | the first element of greatest depth |
| `PlanTopology.CountEdges` | scripts/plan_guard.py:62-62 | the sum of dependency-set sizes is the number of edges of the graph |
| `PlanTopology.Topology` | scripts/plan_guard.py:16-67 | a malformed plan gets its first defect; a cyclic one an error naming, sorted and each once, exactly the ids on or below a cycle; any other plan a report obeying every law above |
| `PlanAudit.OrderIsDetermined` | scripts/plan_guard.py:37-50 | two orders that list nodes by the moment they become ready, then by id, are the same order |
| `PlanAudit.ReportIsDetermined` | scripts/plan_guard.py:60-67 | one graph has one report: order, depths, maximum and chain |
| `PlanAudit.VerdictIgnoresListing` | scripts/plan_guard.py:16-67 | listing the same tasks in another order gives the identical report or the identical named ids |
| `PlanAudit.AuditGraphs` | scripts/plan_guard.py:100-104 | both graphs are reported if and only if the plan is well formed and acyclic with integration dependencies, and no task is then shallower in the second graph; otherwise the error is the first defect or the cycles of the must graph, and of the combined graph when the must graph passes |
| `PlanLaws.GraphLaw` | scripts/plan_guard.py:24-36 | the first graph has the edges listed under `must`, the second those under `must` or `integration` |
| `PlanLaws.WellFormedLaw` | scripts/plan_guard.py:17-36 | a plan is well formed if and only if no id, and no dependency in a field, is listed twice, every dependency is a task, and none is the task itself |
| `PlanLaws.DefectLaw` | scripts/plan_guard.py:17-36 | the error of any other plan is the repeated id, or what is wrong with the first task that is not sound, fields in their order |
| `PlanAudit.DepthsGrow` | scripts/plan_guard.py:103-104 | adding edges never makes the depth of a task smaller |
| `PlanPaths.BeforeWildcard` | scripts/plan_guard.py:70-71 | the longest wildcard-free prefix: what follows it is empty or starts with a wildcard |
| `PlanLaws.WildcardLaw` | scripts/plan_guard.py:70-79 | the wildcards are `?`, `*` and `[` |
| `PlanPaths.SharedPathOverlaps` | scripts/plan_guard.py:74-79 | two plain patterns that reach one path, as lists of names, overlap |
| `PlanPaths.OverlapIsSound` | scripts/plan_guard.py:74-79 | under every glob reading anchored at the text before the first wildcard, two plain patterns that cover one path overlap |
| `PlanPaths.LiteralOverlapIsExact` | scripts/plan_guard.py:77-79 | two plain literals overlap if and only if the names of one begin the names of the other, that is, if and only if some path lies under both |
| `PlanPaths.GlobOverlapIsExact` | scripts/plan_guard.py:74-76 | with a wildcard on either side, the patterns overlap if and only if their compared texts begin one common text |
| `PlanPaths.DotIsMissed` | scripts/plan_guard.py:121-121 | `./a` and `a` are the same path and do not overlap |
| `PlanPaths.SafeIffPlain` | scripts/plan_guard.py:70-79 | the comparison catches every path that a pattern shares with a plain literal if and only if the pattern has no empty and no `.` segment among the segments compared |
| `PlanAudit.Conflicts` | scripts/plan_guard.py:82-97 | the message list of the nested loops, in order |
| `PlanAudit.ConflictMembers` | scripts/plan_guard.py:82-97 | a message is listed if and only if it is the message of some pair of tasks |
| `PlanLaws.ConflictLaw` | scripts/plan_guard.py:82-97 | a message is listed if and only if it names two tasks in order with all the locks both require, or all their overlapping pairs of paths |
| `PlanLaws.OrderLaw` | scripts/plan_guard.py:82-97 | messages are ordered by first task, second task, and locks before paths |
| `PlanAudit.NoConflictsIffDisjoint` | scripts/plan_guard.py:82-97 | the list is empty if and only if the tasks are pairwise disjoint in locks and patterns |
| `PlanAudit.NoConflictsMeansNoSharedWrite` | scripts/plan_guard.py:82-97 | with no conflicts, no lock is required by two tasks and no path is covered by plain patterns of two tasks |
| `RecipeValidator.TerminalSearch.CanReachTerminal` | scripts/validate-recipe-contract.py:69-83 | the recursion over the shared memo and visiting set terminates on every graph, restores visiting, and computes the pure search with its early exit |
| `RecipeGraph.SearchTrue` | scripts/validate-recipe-contract.py:69-83 | every True, returned or stored, comes with a walk to a terminal |
| `RecipeGraph.SearchFalse` | scripts/validate-recipe-contract.py:69-83 | every False leaves a memo in which each False has only False or still-visited successors |
| `RecipeGraph.SearchKeeps` | scripts/validate-recipe-contract.py:69-83 | memo entries are never rewritten and nodes being visited get none |
| `RecipeGraph.FreshSearchIsExact` | scripts/validate-recipe-contract.py:69-83 | with a fresh memo the answer is true if and only if a terminal can be reached around the visited nodes, for every successor order |
| `RecipeTraps.UnflaggedReaches` | scripts/validate-recipe-contract.py:255-261 | on any graph and any memo of true entries, a state the pass does not report can finish |
| `RecipeTraps.TrapFreePass` | scripts/validate-recipe-contract.py:255-261 | without traps the pass over the shared memo reports a state if and only if it cannot finish |
| `RecipeTraps.TrapFailsPass` | scripts/validate-recipe-contract.py:255-261 | with a trap some iteration order reports a state that can finish |
| `RecipeTraps.SharedMemoIsExactIffTrapFree` | scripts/validate-recipe-contract.py:69-83 | the shared memo is exact for all listings and all iteration orders that sets can have if and only if the graph has no trap |
| `RecipeTraps.AcyclicIsTrapFree` | scripts/validate-recipe-contract.py:69-83 | acyclic graphs have no trap, so the shared memo is exact on them |
| `RecipeTraps.SmallestTrap` | scripts/validate-recipe-contract.py:255-261 | two edge tables of one graph with different reports, although every state can finish |
| `RecipeListing.ExactListingIffNoOpenTrap` | scripts/validate-recipe-contract.py:255-261 | for a given listing of the states, the pass is exact for every iteration order that sets can have if and only if no trap starts at a listed state while the states before it can finish without touching the trap |
| `RecipeValidator.IsOnCycle` | scripts/validate-recipe-contract.py:86-97 | true if and only if a non-empty walk leads from the node back to itself |
| `RecipeValidator.ReadStates` | scripts/validate-recipe-contract.py:158-217 | the state tables with later duplicates replacing earlier ones and their targets merged, and a message exactly for each duplicated id |
| `RecipeValidator.CheckTargets` | scripts/validate-recipe-contract.py:224-229 | a message exactly for each target that is neither a state nor a terminal |
| `RecipeValidator.CheckCommit` | scripts/validate-recipe-contract.py:231-253 | messages exactly when the named commit state is missing, misshaped or retryable |
| `RecipeValidator.CheckTermination` | scripts/validate-recipe-contract.py:255-261 | reports exactly the states the shared-memo pass flags |
| `RecipeValidator.CheckCycles` | scripts/validate-recipe-contract.py:262-276 | reports exactly the irreversible-locator and commit states that lie on a cycle |
| `RecipeValidator.ValidateGraph` | scripts/validate-recipe-contract.py:158-276 | a message is listed if and only if it is due, in the fields of the states; for non-termination that is that the shared-memo pass flags the state under the iteration orders at hand |
| `RecipeValidator.DueLaw` | scripts/validate-recipe-contract.py:158-276 | what each message says, in the fields of the states: last state of an id, edges of all its states, loops as walks along edges, the literal terminals and the shape of a commit |
| `RecipeValidator.AcceptedCanFinish` | scripts/validate-recipe-contract.py:255-261 | every state of an accepted recipe can reach a terminal |
| `RecipeValidator.AcceptedWalkIsResolved` | scripts/validate-recipe-contract.py:224-229 | every walk of an accepted recipe stays within its states and the terminals |
| `RecipeValidator.AcceptedIsSingleShot` | scripts/validate-recipe-contract.py:262-276 | every walk, of any length and from any state, visits the commit state at most once, and at most once each state whose locator is one of the irreversible ones |
| `RecipeValidator.AcceptedCommitSucceeds` | scripts/validate-recipe-contract.py:231-253 | from the commit state of an accepted recipe a walk can only go to SUCCEEDED |
| `RecipeValidator.TrapFreeReportsAreExact` | scripts/validate-recipe-contract.py:255-261 | on trap-free recipes a non-termination message is listed if and only if the state cannot finish |
| `RecipeValidator.ReportsExactIffNoOpenTrap` | scripts/validate-recipe-contract.py:255-261 | the non-termination reports of a recipe are exact under every iteration order if and only if no trap is open to its own order of states |
| `RecipeValidator.VerdictDependsOnSetOrder` | scripts/validate-recipe-contract.py:255-261 | a two-state recipe in which state b can finish: b is reported under one iteration order of a successor set, and no state is under another |
| `Csv.ParseCsv` | apps/web/src/data/product-import.ts:72-116 | the index loop with its one-unit look-ahead computes the meaning of a CSV text: one pass without look-ahead, then blank rows dropped; None where the source throws |
| `Csv.DropBlankRows` | apps/web/src/data/product-import.ts:115-115 | keeps exactly the rows with some non-blank cell, in order |
| `Csv.BlankCellShape` | apps/web/src/data/product-import.ts:40-45 | a cell counts as blank if and only if, after one BOM, it is quote marks around white space |
| `Csv.FailsIffQuotesOdd` | apps/web/src/data/product-import.ts:110-110 | on any text, parsing fails if and only if the number of quote characters is odd |
| `Csv.FeedEscaped` | apps/web/src/data/xianyu-material-pools.ts:95-95 | reading an escaped cell inside quotes yields the cell, whatever it holds |
| `Csv.RoundTrip` | apps/web/src/data/xianyu-material-pools.ts:94-96 | parsing the text written for any table gives the table without its blank rows, whatever quotes, commas, CR, LF or BOM its cells hold |
| `Csv.ReimportIsStable` | apps/web/src/data/product-import.ts:72-116 | writing a parsed table and parsing it again gives the same table |
| `CsvPlain.PlainRoundTrip` | apps/web/src/data/product-import.ts:72-116 | parsing a text of bare or quoted cells, in any mixture, with lines ended by LF or CR LF, gives the cells without the blank rows; a BOM in front is not part of the first cell |
| `CsvPlain.WriterLaw` | apps/web/src/data/xianyu-material-pools.ts:94-96 | the writer encloses every cell in quotes, doubles the quotes inside, and joins by commas and LF |
| `CsvPlain.BlankCellLaw` | apps/web/src/data/product-import.ts:40-45 | a cell is blank if and only if, after one BOM, it is quote marks around white space, in code units |
| `CsvPlain.KeptRowsLaw` | apps/web/src/data/product-import.ts:115-115 | a row is kept, in its place, if and only if one of its cells is not blank |
| `MaintenanceWindow.RealOperations.Post` | services/control-api/src/cloudctl_api/services.py:706-744 | the server's compare-and-set: refused requests change nothing, an accepted one raises the version by one and is recorded; the window may only prepare, or finish right after its own acknowledged prepare |
| `MaintenanceWindow.RealOperations.Await` | services/control-api/src/cloudctl_api/services.py:721-725 | whatever others do between two steps, the row is what their requests of that turn make of it, none of the recorded writes or lock commands are the window's, and a row at an unchanged version is unchanged |
| `MaintenanceWindow.RealOperations.SetMaintenance` | artifacts/three-device-20260928/oneplus-v6-cloud.py:283-299 | acknowledged if and only if the request lands (it arrives, no lease is active and nobody changed the row) and its answer is not lost; the row and the one write of the window follow from whether it lands |
| `MaintenanceWindow.RealOperations.PrepareCas` | artifacts/three-device-20260928/oneplus-v6-cloud.py:313-328 | the window moves the device from off, version 12 to on, version 13 if and only if the snapshot passes and the request lands, and it is acknowledged if and only if the answer is then not lost |
| `MaintenanceWindow.RealOperations.FinishOwned` | artifacts/three-device-20260928/oneplus-v6-cloud.py:330-346 | for the owner only: the turns taken, the row left behind, whether the finish is written, and the answer, each decided by the turns from the first one on; an answer always shows off, version 14 |
| `WindowRecords.AcquireReply` | artifacts/three-device-20260928/install-oneplus-v6.py:576-593 | the acquire of the window is well formed: it is granted if and only if the serial is free, with the next token of the serial and the secret of its turn |
| `MaintenanceWindow.RealOperations.SendAcquire` | artifacts/three-device-20260928/install-oneplus-v6.py:576-593 | exactly one own acquire is appended to the lock log and noted; the lock is handed over if and only if it is granted and neither its answer nor its record is lost |
| `MaintenanceWindow.RealOperations.AcquireLock` | artifacts/three-device-20260928/install-oneplus-v6.py:576-593 | the acquire reaches the store if and only if the status came back free and the acquire did not fail; the lock log and the trace then hold exactly that one command more of the window |
| `MaintenanceWindow.RealOperations.PrepareMaintenance` | artifacts/three-device-20260928/install-oneplus-v6.py:734-757 | ownership if and only if the prepare took effect and its answer was kept, whatever becomes of the checks after it; success if and only if the checks pass as well |
| `MaintenanceWindow.RealOperations.Checks` | artifacts/three-device-20260928/install-oneplus-v6.py:703-732 | local checks, a gate and the record of it pass if and only if the two local turns are unbroken and the snapshot between them shows the expected row with identity and occupancy as required |
| `MaintenanceWindow.RealOperations.Observe` | artifacts/three-device-20260928/install-oneplus-v6.py:816-887 | an observation if and only if its three turns are unbroken; its counts and health are those of the first turn, and its gate is that of the row in the second |
| `MaintenanceWindow.RealOperations.FinishMaintenance` | artifacts/three-device-20260928/install-oneplus-v6.py:908-917 | without ownership nothing is asked of the server; an owner gives up ownership if and only if the device is seen idle at off, version 14, and succeeds if and only if the record of it is kept too |
| `MaintenanceWindow.RealOperations.CleanupMaintenance` | artifacts/three-device-20260928/install-oneplus-v6.py:951-957 | without ownership nothing is asked of the server; an owner's cleanup makes the finish whenever the turns let it land, gives up ownership if and only if the device is seen at off, version 14, and succeeds if and only if the record is kept too |
| `MaintenanceWindow.RealOperations.ReleaseLock` | artifacts/three-device-20260928/install-oneplus-v6.py:962-972 | one release attempt of exactly this token in one turn: unless the turn fails exactly one own release is appended to the lock log, and it is acknowledged exactly when its reply came through |
| `MaintenanceWindow.RunStages` | artifacts/three-device-20260928/install-oneplus-v6.py:411-440 | the try block ends with the result, trace, writes, ownership and position that the opening determines, for every way its steps can fail |
| `MaintenanceWindow.PrepareAndInstall` | artifacts/three-device-20260928/install-oneplus-v6.py:417-420 | the install stage is recorded if and only if the prepare is acknowledged, the checks after it pass and the install turn, the twelfth of the window, is unbroken |
| `MaintenanceWindow.FinishStage` | artifacts/three-device-20260928/install-oneplus-v6.py:421-427 | the first verdict is that of the counts of turn 12 with the gate of turn 13, and the maintenance is exited if and only if the finish is seen and recorded |
| `MaintenanceWindow.ProveStage` | artifacts/three-device-20260928/install-oneplus-v6.py:428-439 | the second verdict is that of the observation after the finish, and the last stage is passed if and only if the final checks pass |
| `MaintenanceWindow.CleanUp` | artifacts/three-device-20260928/install-oneplus-v6.py:444-454 | a cleanup is made if and only if the window still owns the maintenance, at the turn and row where the try block stopped, and its failure is reported if and only if the turns make it fail |
| `MaintenanceWindow.ReleaseOnce` | artifacts/three-device-20260928/install-oneplus-v6.py:455-471 | the lock log holds the acquire and this release of the window and no other command of it; when acknowledged, nobody else acquired the serial in between |
| `MaintenanceWindow.ExecuteWindow` | artifacts/three-device-20260928/install-oneplus-v6.py:398-473 | the whole result, the trace, the own lock commands and the own writes are exactly those that the opening determines, whatever fails and whatever others do; an acknowledged release means the lock was exclusive throughout |
| `WindowStories.ReleasedIsExclusive` | artifacts/three-device-20260928/install-oneplus-v6.py:962-972 | when the lock was granted and its release acknowledged, every other acquire of the serial in between was refused |
| `WindowStories.ProvenIff` | artifacts/three-device-20260928/install-oneplus-v6.py:428-439 | PROVEN if and only if the lock was handed over, every stage was passed, both observations suffice and the release was acknowledged, each in terms of the turns |
| `WindowLaws.ProvenInFull` | artifacts/three-device-20260928/install-oneplus-v6.py:209-220 | PROVEN if and only if the listed fields of the turns and rows are as they should be: heartbeats, deferrals and health of the two first turns, identity, occupancy and row of the two second turns, every turn on the way, and the release |
| `WindowLaws.StagesInFull` | artifacts/three-device-20260928/install-oneplus-v6.py:411-439 | each of the seven stages is listed if and only if the fields of its turns and the rows they meet are as they should be |
| `WindowLaws.ResultInFull` | artifacts/three-device-20260928/install-oneplus-v6.py:411-473 | the verdicts, the token, and what each failure is reported for, in the fields of the turns |
| `WindowLaws.HandedLaw` | artifacts/three-device-20260928/install-oneplus-v6.py:576-593 | the acquire is sent, and the lock handed over, under conditions on the fields of three turns and on the row of the serial |
| `WindowLaws.CommandLaw` | artifacts/three-device-20260928/install-oneplus-v6.py:576-593 | the arguments of the acquire and of the release |
| `WindowLaws.AcknowledgedLaw` | artifacts/three-device-20260928/install-oneplus-v6.py:455-471 | the release is acknowledged if and only if its turn brings and keeps the answer that the lock is free |
| `WindowLaws.WritesInFull` | artifacts/three-device-20260928/oneplus-v6-cloud.py:302-346 | the prepare and the finish are made if and only if the fields of their turns and the rows they meet let them |
| `WindowLaws.CleanupInFull` | artifacts/three-device-20260928/install-oneplus-v6.py:951-957 | after the first turn that does not go well, a cleanup failure is reported if and only if the cleanup does not see the device off and record it, and it makes the finish if and only if its fields let it land |
| `WindowLaws.CleanupAfterFinishInFull` | artifacts/three-device-20260928/install-oneplus-v6.py:951-957 | the same for a cleanup after a finish that did not end the maintenance, with the turns it took and the row it left |
| `WindowLaws.ServedLaw` | services/control-api/src/cloudctl_api/services.py:706-744 | a request of anyone moves the row if and only if no lease is active and it names the present version or none, to the requested flag and the next version |
| `WindowLaws.RowLaw` | services/control-api/src/cloudctl_api/services.py:706-744 | the row in a turn is what the requests of that turn make of the row before |
| `WindowStories.PrepareIsEndedIffAnswerKept` | artifacts/three-device-20260928/install-oneplus-v6.py:734-757 | a prepare of the window that took effect is acknowledged, and seen ended or cleaned up after, if and only if its turn does not lose the answer |
| `WindowStories.LostPrepareStays` | artifacts/three-device-20260928/install-oneplus-v6.py:734-757 | otherwise the window writes nothing more and reports FAILED after three stages without any cleanup failure |
| `WindowStories.AcknowledgedIsEndedOrReported` | artifacts/three-device-20260928/install-oneplus-v6.py:444-454 | after an acknowledged prepare either the device was seen off at version 14 or the result is FAILED with a cleanup failure |
| `WindowStories.CleanupFailsIff` | artifacts/three-device-20260928/install-oneplus-v6.py:444-454 | a cleanup failure is reported if and only if a cleanup was needed and the turns from where the try block stopped do not let it pass |
| `WindowStories.UncontestedInside` | artifacts/three-device-20260928/oneplus-v6-cloud.py:330-346 | between the prepare and an ended maintenance the row was at on, 13 or off, 14 in every turn |
| `WindowCourse.RowVersion` | services/control-api/src/cloudctl_api/services.py:721-725 | requests of others change the row only by raising its version, over any number of turns |
| `WindowRecords.AtMostOnePrepareAndOneFinish` | artifacts/three-device-20260928/oneplus-v6-cloud.py:302-346 | the window's accepted writes are at most one prepare and one finish, adjacent in the device's history |
| `WindowRecords.PrepareIsLast` | artifacts/three-device-20260928/oneplus-v6-cloud.py:330-346 | at version 13 the window's own prepare is the last accepted change of anyone, so it is what the finish undoes |
| `WindowStories.OwnCommandsOfStory` | artifacts/three-device-20260928/install-oneplus-v6.py:411-471 | every lock command of the window is the acquire of its third turn, or the release of the lock it was handed, as the last command of the log |
| `WindowStories.AttemptIffAnswerKept` | artifacts/three-device-20260928/install-oneplus-v6.py:455-471 | a granted acquire of the window gets a release attempt if and only if its turn neither loses the answer nor fails to save the private record |
| `WindowStories.MislaidLockStays` | artifacts/three-device-20260928/install-oneplus-v6.py:576-593 | otherwise the window sends nothing more, and the lock is still held at its end unless somebody else released or broke that token |
| `MaintenanceWindow.LostAnswerExample` | artifacts/three-device-20260928/install-oneplus-v6.py:576-593 | a whole window that reaches this case: its acquire is granted, no release is attempted, and the lock is held at the end |
| `MaintenanceWindow.LostPrepareExample` | artifacts/three-device-20260928/install-oneplus-v6.py:734-757 | a whole window whose prepare takes effect and loses its answer: the device stays on at version 13, no finish is attempted and no cleanup failure is reported |
| `MaintenanceWindow.UndisturbedWindow` | artifacts/three-device-20260928/install-oneplus-v6.py:398-473 | a window that starts with the serial free and the device at off, version 12, and in which nothing breaks, passes every stage and is PROVEN if the first turns of its observations count enough and NOT_PROVEN otherwise, whatever ran before it |
| `MaintenanceWindow.UnhealthyExample` | artifacts/three-device-20260928/install-oneplus-v6.py:209-220 | a whole window that ends NOT_PROVEN for one unhealthy sample |
| `PublishQueue.Tab.Prepare` | apps/web/src/data/xianyu-publish-goods.ts:261-279 | an accepted input takes one fresh id for the queue and, in item order, one for each item with media |
| `PublishQueue.Tab.Begin` | apps/web/src/data/xianyu-publish-goods.ts:288-343 | the part of the call before its last await: reuse of a checked stored record, or a newly minted one |
| `PublishQueue.Tab.Commit` | apps/web/src/data/xianyu-publish-goods.ts:345-352 | the part after it: write, read back, return or throw |
| `PublishRuns.RunKeepsInvariant` | apps/web/src/data/xianyu-publish-goods.ts:288-352 | after any interleaving every stored text was minted for its key, and every awaiting or returned request stands for a genuine record |
| `PublishRuns.QueueIdsNeverShared` | apps/web/src/data/xianyu-publish-goods.ts:288-352 | requests returned for different scopes or inputs never share a queue id, even when calls overlap |
| `PublishRuns.MintedPassesChecks` | apps/web/src/data/xianyu-publish-goods.ts:311-323 | a record minted from fresh ids passes every check made before reuse |
| `PublishRuns.StoredRecordIsReusable` | apps/web/src/data/xianyu-publish-goods.ts:308-335 | after any run, a call whose record is stored mints nothing and returns the request that the record stands for, unless the write throws |
| `PublishLaws.ReuseLaw` | apps/web/src/data/xianyu-publish-goods.ts:308-335 | a stored record is used again if and only if it is good for the key and the items and the known request is the one it gives; what the call then carries, field by field |
| `PublishLaws.NoScopeLaw` | apps/web/src/data/xianyu-publish-goods.ts:294-296 | without a good scope the call throws and takes no id |
| `PublishLaws.MintLaw` | apps/web/src/data/xianyu-publish-goods.ts:336-343 | without a stored record one is minted if and only if the caller knows of none and the input is good; its key, text and request, field by field |
| `PublishLaws.MintedLaw` | apps/web/src/data/xianyu-publish-goods.ts:336-343 | a minted record holds the next id, the following ids for the items with media in their order, both hashes and the checksum of all of them |
| `PublishLaws.RecordLaw` | apps/web/src/data/xianyu-publish-goods.ts:311-323 | when a stored record is good, with version-4 UUIDs spelled out |
| `PublishLaws.CommitLaw` | apps/web/src/data/xianyu-publish-goods.ts:345-352 | the request is returned if and only if its text is found under the key after the write |
| `PublishLaws.ResultsInFull` | apps/web/src/data/xianyu-publish-goods.ts:324-335 | every request that a run returns has the device, account, descriptions, prices and media of its input in order, and the delivery ids of a record minted for its key |
| `PublishRuns.PermanentIffNoClash` | apps/web/src/data/xianyu-publish-goods.ts:288-352 | no stored record is ever replaced by a different one if and only if no creating call commits over a record that appeared while it was awaiting |
| `PublishRuns.RetriesAreIdentical` | apps/web/src/data/xianyu-publish-goods.ts:288-352 | in a run without such a clash all successful calls for one scope and input return the identical request |
| `PublishRuns.RetriesIdenticalIffNoClash` | apps/web/src/data/xianyu-publish-goods.ts:288-352 | all successful calls for each scope and input return identical requests if and only if no call clashes |
| `PublishRuns.NoClashIffNoOverlap` | apps/web/src/data/xianyu-publish-goods.ts:336-352 | a run is free of clashes if and only if no two calls create a record for one key at the same time and both keep their write |
| `PublishRuns.OneAtATimeNeverClashes` | apps/web/src/data/xianyu-publish-goods.ts:288-352 | calls for one scope and input that wait for each other never clash, whatever other keys do |
| `PublishRuns.OverlapBreaksIdentity` | apps/web/src/data/xianyu-publish-goods.ts:288-352 | two overlapping calls for one scope and input both succeed, with different queue ids |
| `PublishResponse.ParseTarget` | apps/web/src/data/xianyu-publish-goods.ts:211-242 | a target is accepted if and only if it matches the request, where a missing media list differs from an empty one, and repeats neither id nor position; only then are both recorded |
| `PublishResponse.SortedPositions` | apps/web/src/data/xianyu-publish-goods.ts:244-259 | n distinct positions below n, sorted, are 0 to n − 1 |
| `PublishResponse.ParseQueue` | apps/web/src/data/xianyu-publish-goods.ts:244-259 | a response is accepted if and only if it is acceptable, and target i of the result has position i, carries item i and comes from the response |
| `ResponseLaws.AcceptanceLaw` | apps/web/src/data/xianyu-publish-goods.ts:211-259 | a response is accepted if and only if these fields of it agree with the request, in the literal states and boundary |
| `ResponseLaws.ViewLaw` | apps/web/src/data/xianyu-publish-goods.ts:244-259 | target i of the view has the id, state, tasks and external id of the raw target at position i, and item i of the request |
| `Distribution.AllocatePosts` | apps/web/src/data/post-publish.ts:66-83 | the cursor loop gives every post to every device in the default mode and the posts in blocks in the even one |
| `Distribution.AssignKeepsItems` | apps/web/src/data/post-publish.ts:72-82 | every item is assigned exactly once, in item order, to the device at its position |
| `Distribution.QuotasAreFair` | apps/web/src/data/post-publish.ts:72-75 | shares differ by at most one, the larger ones first, and the blocks use up all items |
| `Distribution.EvenModesLoadAlike` | apps/web/src/data/xianyu-publish-goods.ts:441-450 | the block split and the round robin use every device position equally often |
| `Distribution.EvenModesLoadDevicesAlike` | apps/web/src/data/xianyu-publish-goods.ts:441-450 | the two allocations put the same load on every device id in either mode, for any number of items, repeated ids included |
| `Distribution.EachDeviceGetsItsQuota` | apps/web/src/data/xianyu-publish-goods.ts:441-450 | from either allocation, with distinct ids, the device at position i gets all n items in the default mode, and floor(n / d) plus one if i < n mod d in the even one |
| `Distribution.DefaultLaw` | apps/web/src/data/xianyu-publish-goods.ts:441-446 | entry i n + j of the default mode is device i with item j, from either allocation |
| `Distribution.BlockLaw` | apps/web/src/data/post-publish.ts:72-82 | post k goes to the device whose block, from i floor(n / d) + min(i, n mod d) on, holds k |
| `Distribution.TurnLaw` | apps/web/src/data/xianyu-publish-goods.ts:446-449 | product k goes to the device at position k mod d |
| `Layout.LayoutReader.Visit` | edge/gateway/src/cloudctl_edge/adb_debug.py:139-170 | a subtree is read if and only if its bounds match and no element is met after 2048 rows; its rows are appended in preorder with wrappers spliced out |
| `Layout.ParseLayout` | edge/gateway/src/cloudctl_edge/adb_debug.py:137-172 | the layout is the preorder of the node elements with depth counting enclosing nodes, at most 2048 rows |
| `Layout.RebuildLabels` | edge/gateway/src/cloudctl_edge/adb_debug.py:139-170 | rebuilding a depth-labelled list gives back the forest it was flattened from |
| `Layout.LayoutDeterminesForest` | edge/gateway/src/cloudctl_edge/adb_debug.py:139-170 | the depths of an accepted layout, read in order, give back the spliced document |
| `Layout.SameListSameForest` | edge/gateway/src/cloudctl_edge/adb_debug.py:139-170 | forests with equal labelled lists are equal |
| `LayoutLaws.ReadableLaw` | edge/gateway/src/cloudctl_edge/adb_debug.py:139-147 | a document is read if and only if every node element has matching bounds and no element is met after 2048 rows |
| `LayoutLaws.RowLaw` | edge/gateway/src/cloudctl_edge/adb_debug.py:148-168 | row i is the i-th node element in document order with the number of node elements around it, and holds these fields of its attributes |
| `SourceArchive.WalkFiles` | scripts/build-source-archive.py:204-217 | the file loop lists exactly the included files of one directory, or fails only at a link or sensitive content |
| `SourceArchive.CheckDirectoryLinks` | scripts/build-source-archive.py:193-196 | a link among the directory names is reported, excluded or not |
| `SourceArchive.WalkFolder` | scripts/build-source-archive.py:189-218 | the pruned recursion fails if and only if something below offends, and otherwise finds exactly the included files, each once |
| `SourceArchive.SourceFiles` | scripts/build-source-archive.py:189-218 | exactly the files whose every ancestor directory and own name pass the policy, sorted by name and without duplicates |
| `ArchiveLaws.CleanLaw` | scripts/build-source-archive.py:189-218 | the walk gets through if and only if no path below open directories leads to a link or to a kept file of sensitive content |
| `ArchiveLaws.IncludedLaw` | scripts/build-source-archive.py:189-218 | a file is included if and only if its path leads to it below open directories and the file is not excluded |
| `SourceArchive.PartsOfJoin` | scripts/build-source-archive.py:330-386 | reading the parts of a joined path gives back the path |
| `SourceArchive.JoinIsInjective` | scripts/build-source-archive.py:189-218 | different valid paths have different archive names |
| `SourceArchive.BuildArchive` | scripts/build-source-archive.py:303-327 | members in the given order with constant metadata, a manifest of them, and the audit of the result |
| `SourceArchive.AuditMember` | scripts/build-source-archive.py:330-386 | one member passes if and only if its name, metadata and content obey the policy |
| `SourceArchive.AuditArchive` | scripts/build-source-archive.py:330-386 | the archive passes if and only if its names are sorted and unique, all members pass and the manifest agrees |
| `ArchiveLaws.AuditLaw` | scripts/build-source-archive.py:330-386 | the audit in characters and numbers: names in code point order without repetition, literal metadata, the policy on the parts of each name, and rows with name, digest and size of each member |
| `ArchiveLaws.BuiltLaw` | scripts/build-source-archive.py:303-327 | a member carries the name and content of its file under the literal metadata |
| `ArchiveLaws.PartsLaw` | scripts/build-source-archive.py:345-350 | the parts of a name are its segments other than the empty one and `.` |
| `SourceArchive.IncludedMemberIsOk` | scripts/build-source-archive.py:147-166 | the audit's check on a flat name agrees with the walk's check on the path |
| `SourceArchive.BuiltArchivePassesAudit` | scripts/build-source-archive.py:303-373 | the audit accepts every archive built from the walk of a clean tree |
| `SourceArchive.Deliver` | scripts/build-source-archive.py:436-462 | a clean tree always yields an accepted archive that holds every included file with its content and nothing else |
| `CanonicalTree.CanonicalTree` | contracts/ui-observation/v1/tools/check_fixtures.py:22-31 | the loops produce the joined lines of the stably sorted nodes |
| `CanonicalTree.TextDeterminesNodes` | contracts/ui-observation/v1/tools/check_fixtures.py:22-31 | with newline-free values, two trees have equal texts if and only if their ordered nodes agree in every rendered field |
| `CanonicalTree.PermutationGivesSameText` | contracts/ui-observation/v1/tools/check_fixtures.py:22-31 | listing the nodes in another order gives the same text when nodes that share depth and index are rendered alike |
| `CanonicalTree.SortIsStable` | contracts/ui-observation/v1/tools/check_fixtures.py:23-23 | nodes of one key keep their listing order |
| `CanonicalTree.SwapChangesText` | contracts/ui-observation/v1/tools/check_fixtures.py:22-31 | swapping two nodes of one key that are rendered differently changes the text |
| `CanonicalTree.OrderFreeIffKeysTellText` | contracts/ui-observation/v1/tools/check_fixtures.py:22-31 | the text is the same for every listing if and only if nodes sharing depth and index are rendered alike |
| `CanonicalTree.BooleanLooksLikeString` | contracts/ui-observation/v1/tools/check_fixtures.py:27-30 | a boolean and the string it is rendered as give different trees of the same text |
| `TreeLaws.LinesLaw` | contracts/ui-observation/v1/tools/check_fixtures.py:25-30 | the six lines of a node, in the order bounds, class, clickable, contentDesc, resourceId, text |
| `TreeLaws.LineAtLaw` | contracts/ui-observation/v1/tools/check_fixtures.py:24-30 | line k of the i-th node in order is line 6 i + k of the text |
| `TreeLaws.TextLaw` | contracts/ui-observation/v1/tools/check_fixtures.py:23-31 | nodes are ordered by depth and then by index, and all lines joined by line feeds |
| `Ordering.SortBySorts` | contracts/ui-observation/v1/tools/check_fixtures.py:23-23 | the stable sort used for every sorted list of the project sorts by any total preorder |
| `Ordering.LexLaw` | scripts/build-source-archive.py:344-347 | names are compared by code points at the first place where they differ |
| `Text.SplitJoin` | contracts/ui-observation/v1/tools/check_fixtures.py:31-31 | splitting a joined text at a separator that no piece holds gives back the pieces |

## Left out

- SQLite connections, journal modes, schema, file-system and symlink checks, token files and the command line of the device lock: platform calls. Each method body is one atomic transaction; a storage fault rolls it back and is not a step of the model.
- Status and history queries of the device lock: read-only views of the tables.
- Overflow of Python dates: moments are unbounded.
- The other field checks of the plan `audit` (required fields, statuses, legacy packages, evidence coverage, file existence): one branch each.
- Paths with `..`, a backslash or a leading slash among the owned paths: `audit` refuses them (scripts/plan_guard.py:121). In the path comparison `..` counts as an ordinary name.
- The message texts of all validators: the model keeps which message is raised and what it names.
- `walk_forbidden`, recipe hashes and signatures, per-field limits and template validation in the recipe validator: long lists of independent checks.
- ZIP, JSON, SHA-256, Ed25519, XML decoding and the bounds regular expression: parameters or plain data.
- The concrete excluded names, case folding and sensitive-content patterns of the archive: the policy is a parameter, applied to paths by walk and audit as the source does. Reading a file that vanishes or is unreadable is left out.
- `audit_ledger_evidence`, manifest and checksum files, and delivery path checks of the archive.
- adb, ssh, dumpsys, logcat and journal parsing in the installer and cloud scripts: each is a step that returns some value or fails. The polling loop of `observe`, with the package and runtime checks before it, is one such step with its final counts, and so is the install with its two clock readings.
- The v4 and v5 installers: they repeat v6 with other constants.
- `headerIndex`, `parseImportTable`, spreadsheet reading and image references of the product import.
- `buildXianyuPublishQueueItems`, dispatch and task responses, and HTTP calls of the publish pages. sessionStorage is this tab's alone, and a read that throws is an ordinary failed call.
- `PublishResponse.ParseTarget`: the checks on boundaries, judgment, result and confirmation time that are neither used nor returned are gathered in one flag.
- `CanonicalTree.CanonicalTree`: field values are strings and booleans; other JSON values are not modelled, and a node lacking a field is outside the precondition because the source raises there.
- `SourceArchive.SourceFiles`: the tree is a fixed value while it is walked; changes to the disk during the walk are not modelled.
- Restarts of the installer: a window is one call of `execute_window`.
