# Verified model of the Styio platform core

A Dafny 4.11 model of the parts of the platform whose behaviour is hardest to see by reading:

- **Compile stress scheduler** (`StressModel`, `StressAccounts`, `StressSchedule`, `Latency`, `StressGate`,
  `CompileStress`): a discrete-event simulation with tenants, containers that warm up, serve, drain and retire, a
  completion heap and a concurrency cap. Drawn latencies and failures are arbitrary inputs. The main result,
  `CompileStress.RunStress`, says that every valid configuration runs to the end, without a stall and without a
  refused replacement, and gives the exact report.
- **Single-version resolver and package order** (`ResolverModel`, `Representatives`, `Resolver`, `ResolvedGraph`,
  `RepublishedArtifact`, `PackageOrder`, `PlanOrder`): manifests are a finite map from directories to parsed values;
  fetching a git or registry source is a partial function. Resolution decides whether the closure of the root
  packages, with one selection standing for each fingerprint, is free of flaws, and returns that closure. Ordering
  returns a topological order, or a genuine cycle, or a genuinely missing id.
- **Registry publication** (`RegistryTree`, `RegistryProtocol`, `RegistryRuns`, `RegistryLogs`, `RegistryMarks`,
  `RegistryEffects`, `RegistryRestarts`, `Registry`): publish, yank, unyank, promote, rollback and restarts over a
  live tree, immutable publications and distribution pointers. Hashes are functions passed in; that they do not
  collide is assumed only in `RegistryTree.ChainCommits`, `RegistryLogs.CheckpointsCommit`, `RegistryMarks.LeafTells`,
  `RegistryMarks.LeafMatchesExactly` and `RegistryMarks.UnyankLeavesTrace`.
- **SHA-256** (`Sha256Spec`, `Sha256Constants`, `Sha256Example`, `Sha256Stream`): the one-shot definition of FIPS
  180-4, its constants from the primes, the standard's example, and the streaming object.
- **Job and container stores** (`JobIds`, `JobRecords`, `JobRows`, `Runs`, `PostgresJobs`, `PostgresStore`,
  `MemoryJobs`, `MemoryStore`): both stores as state machines over handler calls, and the store objects that refine
  them.
- **Rate limiter** (`RateLimiter`), **lockfile printer and loader** (`Lockfile`, `LockfileIo`, and, with a reader for
  the part of TOML v1.0.0 that they use, `Toml` and `LockfileRoundTrip`), and the **YAML subset** (`YamlScalar`,
  `Yaml`, `YamlRules`, `YamlPaths`, `YamlRoundTrip`, `YamlLoader`).

`Prelude`, `Arithmetic`, `Ordering` and `Decimals` hold shared vocabulary. Where the source updates state in place the
model is a class or a method with a loop, proved equal to a function on values; theorems over whole runs are lemmas
about those functions. `dafny verify dfyconfig.toml` checks everything.

## Findings

- **Rate limiter.** The sliding bound is one better than twice the limit: at most `2 * limit - 1` calls of a key are
  admitted in any interval of window length, and that is reached for every limit and every window of at least two
  seconds; with a window of one second the bound is the limit, and reached. The bucket follows the windows exactly
  when no window opened at time zero gets a second call (`TracksExactly`): zero also marks an unused bucket, so at
  time zero every call opens a new window and nothing is refused (`ZeroClockIsUnlimited`). Keys of different callers
  coincide exactly when an operation name contains a colon in the right place (`KeysCollideExactly`); the route table
  has none.
- **Memory store.** Cancel and complete do not look at the status, and an unclaimed job has the empty text as its
  owner, so a job that nobody claimed can be completed in the empty name and cancelled afterwards
  (`OutcomeOverwritten`). `OutcomeChangesExactly` gives the exact condition. A registration resets the generation of a
  container, so there it counts moves since the latest registration only. A claim without a container asks only whether
  the worker is known, not where it is registered (`MemoryJobs.ClaimsExactly`); the Postgres store asks for both.
- **Postgres store.** A repeated registration may move a container to another workspace without raising its generation
  (`RegistrationMoves`), so the generation counts switches and claims only.
- **Artifact ids.** The artifact id is the key of the whole artifact table, and every artifact that is reported
  without one gets the id `artifact`. So a completion of a running job by its worker succeeds exactly when the
  reported ids are distinct and no other job has one of them (`PostgresStore.Store.CompleteJob`). `SecondUnnamedFails`
  is a run in which two jobs each report an unnamed artifact and the second stays running; the id is taken for good
  (`TakenForGood`).
- **Job ids.** Identifier order is numeric order below 10^12; `JobIdOrderExactly` gives the order of any two, and
  `LaterJobTakenFirst` is a run in which a claim takes a later job first.
- **Lockfile.** The printer escapes quotes and backslashes only. A lockfile with a control character in a text, other
  than a tab, prints a file that is not TOML (`LockfileRoundTrip.RoundTrip`); every other one comes back.
- **YAML.** A text that is written bare and reads as a keyword or an integer does not come back: `"true"`, `"-007"`
  and `"1_000"` are lost, while `"007"` and `"~"` are kept. `RoundTrip` is an equivalence.
- **Transparency log.** After the default distribution is moved back, the next publish reuses a leaf number, and the
  logs of publications fork; `MoveForksExactly` says when. Logs that agree on a leaf agree on all earlier ones as long
  as the control plane is not restarted, since it then remembers every release (`UninterruptedNeverRepeats`). A
  restart without a database forgets them (`RestartForgets`), and a release that was lost by moving the default
  distribution back can be published again; with the earlier publication time this gives two logs that agree on a leaf
  and not on the one before (`RestartBreaks`). The logs form a tree exactly when every publish whose leaf some log
  already holds was made on a log that this one extends (`RunForestExactly`).
- **Yank.** A fresh index record has no reason key, and unyanking writes an empty one. So yank and unyank give the
  same records back exactly when the release had been unyanked before (`UnyankRestoresExactly`), and the record that
  the log committed to is the one in the index exactly when the release was never marked (`LeafMatchesExactly`,
  `UnyankLeavesTrace`).
- **Resolver.** One registry artifact published under two versions is checked out at two places that share a
  fingerprint. The first one met stands for both, and what is below the other is never looked at: in the world of
  `ConflictUnnoticed` one package name has two sources and the resolver answers with a graph. So "success exactly when
  the closure is free of flaws, and the result is the closure" is false as it stands. It holds exactly when no
  artifact is shared in this way among the reachable checkouts, or when the answer is an error and there is a flaw
  (`DecidesExactly`, `AmbiguousExactly`). A success overlooks a flaw exactly when something is wrong with a reachable
  selection that no package of the graph is (`UnnoticedExactly`). In every world it holds of the problem in which one
  reachable selection stands for each fingerprint. Every error is a flaw of the problem itself with one exception, a
  wrong package name, which needs one digest with two contents (`WrongPackageReported`). The branch that returns an
  existing node found by name with the same fingerprint is unreachable (`ReportConflict`).

## Model

| member | source | states |
|---|---|---|
| `CompileStress.RunStress` | src/PlatformCloud/DeveloperWorkspace/workspace_compile_stress/runner.py:448-454 | For every configuration and every choice of latencies and failures: rejected exactly when one of the listed fields is out of range, otherwise the run ends and reports all jobs finished, failures as drawn in all and for each tenant, floor((jobs-1)/every) replacements, none draining, retired equal to replaced, exact per-tenant counts, and so no violation. The greatest number of jobs that a tenant had running is the greatest value that its load ever takes, event by event. Minimum, maximum, average and percentiles are described by counting among the drawn latencies, throughput and failure rates by what they multiply to. The gate follows laws in terms of configuration and draws alone: too many failures exactly when failures > rate * jobs, too slow exactly when there is a limit and fewer than 95% of the latencies keep it. The run lasts as long as its longest job, at least the compiling time divided by the concurrency, and at most the compiling time plus one warm-up for each replacement. Every container went warming, active, draining, retired without a skip |
| `CompileStress.StressRunner.Run` | src/PlatformCloud/DeveloperWorkspace/workspace_compile_stress/runner.py:128-161 | The three loops of a run end, keep the invariant in the final state and give the report and the lives of the containers |
| `CompileStress.StressRunner.CreateContainer` | src/PlatformCloud/DeveloperWorkspace/workspace_compile_stress/runner.py:170-194 | The new state is the pure creation step of the old state |
| `CompileStress.StressRunner.ProcessWarmups` | src/PlatformCloud/DeveloperWorkspace/workspace_compile_stress/runner.py:196-206 | The in-place pass over the containers equals the pure warm-up step |
| `CompileStress.StressRunner.HotReplace` | src/PlatformCloud/DeveloperWorkspace/workspace_compile_stress/runner.py:216-241 | Replaces the active container of the tenant that has the fewest running jobs, then the fewest accepted, then the lowest number, or records a violation |
| `CompileStress.StressRunner.RetireIfIdle` | src/PlatformCloud/DeveloperWorkspace/workspace_compile_stress/runner.py:243-251 | A draining container with no job left is retired, any other is left alone |
| `CompileStress.StressRunner.AcquireContainer` | src/PlatformCloud/DeveloperWorkspace/workspace_compile_stress/runner.py:253-265 | Always returns a free active container of the tenant: none has fewer running jobs, among those with as many none accepted fewer, among those none is older; until then only waiting happens |
| `CompileStress.StressRunner.StartJob` | src/PlatformCloud/DeveloperWorkspace/workspace_compile_stress/runner.py:267-305 | The new state is the pure start step, violations included |
| `CompileStress.StressRunner.AdvanceToNextEvent` | src/PlatformCloud/DeveloperWorkspace/workspace_compile_stress/runner.py:307-323 | Pops the earliest completion or skips to the earliest warm-up, or reports that no event remains |
| `CompileStress.StressRunner.FinishJob` | src/PlatformCloud/DeveloperWorkspace/workspace_compile_stress/runner.py:325-344 | The new state is the pure finish step |
| `CompileStress.StressRunner.AwaitCapacity` | src/PlatformCloud/DeveloperWorkspace/workspace_compile_stress/runner.py:148-149 | The loop on the concurrency cap ends below the cap and changes nothing that was promised |
| `CompileStress.StressRunner.ReplaceWhenDue` | src/PlatformCloud/DeveloperWorkspace/workspace_compile_stress/runner.py:139-147 | The replacement a job triggers is made, and the count of replacements is the count of slots passed |
| `CompileStress.StressRunner.Drain` | src/PlatformCloud/DeveloperWorkspace/workspace_compile_stress/runner.py:155-156 | The final loop ends with an empty heap and keeps the progress statement |
| `CompileStress.StressRunner.BuildSummary` | src/PlatformCloud/DeveloperWorkspace/workspace_compile_stress/runner.py:346-423 | The printed counts, latency figures, makespan, throughput, failure rates and gate reasons are those of the state; what they mean is in `StressGate` |
| `StressModel.AdvanceIsEnabled` | src/PlatformCloud/DeveloperWorkspace/workspace_compile_stress/runner.py:253-265 | No deadlock: whenever no container of a tenant is free there is a completion or a warm-up to wait for |
| `StressModel.AdvanceKeepsInv` | src/PlatformCloud/DeveloperWorkspace/workspace_compile_stress/runner.py:307-323 | With an event pending, advancing succeeds, keeps the invariant and strictly lowers heap size plus warming containers |
| `StressModel.StartKeepsInv` | src/PlatformCloud/DeveloperWorkspace/workspace_compile_stress/runner.py:267-305 | Starting a job on a free container keeps the invariant: cap, slots, accepted = active + completed, distinct names, no violation |
| `StressModel.HotReplaceKeepsInv` | src/PlatformCloud/DeveloperWorkspace/workspace_compile_stress/runner.py:216-241 | With an active container a replacement keeps the invariant and counts one |
| `StressModel.PopKeepsInv` | src/PlatformCloud/DeveloperWorkspace/workspace_compile_stress/runner.py:325-344 | Finishing the earliest job keeps the invariant, draining containers included |
| `StressModel.WarmupsKeepInv` | src/PlatformCloud/DeveloperWorkspace/workspace_compile_stress/runner.py:196-206 | Warm-ups keep the invariant |
| `StressModel.WarmupsProgress` | src/PlatformCloud/DeveloperWorkspace/workspace_compile_stress/runner.py:196-206 | After the pass nothing due is still warming, and a due container lowers the measure |
| `StressModel.InFlightAgrees` | src/PlatformCloud/DeveloperWorkspace/workspace_compile_stress/runner.py:267-344 | In-flight count = heap size = sum of container loads = sum of tenant loads |
| `StressModel.NextWarmup` | src/PlatformCloud/DeveloperWorkspace/workspace_compile_stress/runner.py:208-214 | The least future warm-up time, or none exactly when no container is warming in the future |
| `StressModel.Best` | src/PlatformCloud/DeveloperWorkspace/workspace_compile_stress/runner.py:222-229 | Among the containers of a kind: none has fewer running jobs, among those with as many none accepted fewer, and among those none has a lower number |
| `StressModel.HotReplaceExchanges` | src/PlatformCloud/DeveloperWorkspace/workspace_compile_stress/runner.py:216-241 | A replacement adds one warming container for the tenant and drains, or at once retires, the least loaded active one; every other container only warms up |
| `StressModel.AdvanceChooses` | src/PlatformCloud/DeveloperWorkspace/workspace_compile_stress/runner.py:307-323 | Some completion that no other precedes is next unless a container becomes active strictly before it; otherwise time moves to the next such moment and nothing finishes |
| `StressModel.LoadMoves` | src/PlatformCloud/DeveloperWorkspace/workspace_compile_stress/runner.py:267-344 | Raising or lowering a tenant's load by one keeps its recorded maximum the greatest value of the load so far |
| `StressAccounts.AdvanceAccounted` | src/PlatformCloud/DeveloperWorkspace/workspace_compile_stress/runner.py:307-323 | Advancing keeps the accounts: no more than `concurrency` jobs compile at a time, at any time a job compiles or a container warms up, no job outlasts the run, and failures belong to the tenants they were drawn for |
| `StressAccounts.StartAccounted` | src/PlatformCloud/DeveloperWorkspace/workspace_compile_stress/runner.py:267-305 | Starting the next job keeps the accounts, with its draw added |
| `StressAccounts.HotReplaceAccounted` | src/PlatformCloud/DeveloperWorkspace/workspace_compile_stress/runner.py:216-241 | A replacement keeps the accounts, with one more warm-up |
| `StressAccounts.DrainedPace` | src/PlatformCloud/DeveloperWorkspace/workspace_compile_stress/runner.py:402-403 | With an empty heap, compiling time <= concurrency * makespan and makespan <= compiling time + warm-up * replacements |
| `StressSchedule.SlotsAreFar` | src/PlatformCloud/DeveloperWorkspace/workspace_compile_stress/runner.py:139-147 | Two replacements of one tenant are at least as many jobs apart as there are tenants |
| `StressSchedule.SlotFindsActive` | src/PlatformCloud/DeveloperWorkspace/workspace_compile_stress/runner.py:216-241 | A due replacement always finds an active container, because one of the tenant's jobs acquired one since the last |
| `StressSchedule.ReplacementKeepsReady` | src/PlatformCloud/DeveloperWorkspace/workspace_compile_stress/runner.py:216-241 | A replacement keeps the readiness statement for every tenant, with its own slot recorded |
| `StressSchedule.StartKeepsReady` | src/PlatformCloud/DeveloperWorkspace/workspace_compile_stress/runner.py:267-305 | Starting job n makes its tenant ready again, and keeps the others |
| `StressSchedule.DrainedPhases` | src/PlatformCloud/DeveloperWorkspace/workspace_compile_stress/runner.py:351-354 | With an empty heap nothing drains, retired = replaced, and the rest is the configured population |
| `StressSchedule.DrainedTenants` | src/PlatformCloud/DeveloperWorkspace/workspace_compile_stress/runner.py:371-382 | Final started, finished, replaced and created counts of each tenant in closed form |
| `StressSchedule.DrainedReports` | src/PlatformCloud/DeveloperWorkspace/workspace_compile_stress/runner.py:346-423 | The summary of a drained state is the promised report, the rates and the bounds on the makespan included |
| `StressSchedule.IdleExactly` | src/PlatformCloud/DeveloperWorkspace/workspace_compile_stress/runner.py:367-369 | The tenants reported idle are exactly those numbered at or above the number of jobs |
| `StressSchedule.SummaryLives` | src/PlatformCloud/DeveloperWorkspace/workspace_compile_stress/runner.py:407-411 | Phases that were logged one assignment at a time follow the four-phase chain, and the reported counts are those of the last phases |
| `StressGate.GateIsLawful` | src/PlatformCloud/DeveloperWorkspace/workspace_compile_stress/runner.py:346-369 | The reasons of a report, from configuration and draws alone: failures exactly when more than rate * jobs draws fail, latency exactly when there is a limit and fewer than 95% of the drawn latencies are at most the limit, a missing replacement exactly when one is required and none is due, a tenant without jobs exactly for the surplus tenants, nothing else |
| `StressGate.PassesExactly` | src/PlatformCloud/DeveloperWorkspace/workspace_compile_stress/runner.py:356-369 | The gate passes exactly when failures <= rate * jobs, 95% of the latencies keep the limit if there is one, a required replacement is due, and there are at least as many jobs as tenants |
| `StressGate.CleanRunPasses` | src/PlatformCloud/DeveloperWorkspace/workspace_compile_stress/runner.py:356-369 | A run without a failing draw or a latency limit, with a job for every tenant and no replacement missing, has no reason to fail |
| `StressGate.FiguresDescribe` | src/PlatformCloud/DeveloperWorkspace/workspace_compile_stress/runner.py:426-445 | Each latency figure is told by counting among the values: smallest, greatest, average, and each percentile with its share at or below it and less below |
| `StressGate.ReportPrintsTrue` | src/PlatformCloud/DeveloperWorkspace/workspace_compile_stress/runner.py:402-423 | The figures of a report describe the drawn latencies; throughput times makespan is jobs, and a failure rate times finished jobs is failures |
| `Latency.PercentileIsNearestRank` | src/PlatformCloud/DeveloperWorkspace/workspace_compile_stress/runner.py:440-445 | A percentile is a recorded value with at least its share of the values at or below it and less than its share below it |
| `Latency.FloatPercentileIsExact` | src/PlatformCloud/DeveloperWorkspace/workspace_compile_stress/runner.py:440-445 | Up to 2^40 values the floating-point rank is the exact one, for every rounding that keeps the order and leaves multiples of 1/128 alone, and the doubles next to 0.5, 0.95 and 0.99 |
| `Latency.FiguresForgetOrder` | src/PlatformCloud/DeveloperWorkspace/workspace_compile_stress/runner.py:426-437 | The figures depend on the recorded values only, not on the order in which jobs finish |
| `PackageOrder.BuildPackageOrder` | src/SpioPlatformProtocols/CompilePlan.cpp:408-461 | Succeeds exactly on acyclic graphs without dangling ids; the result lists every package once, dependencies first, and is the depth-first order from the sorted ids; a reported cycle is a dependency cycle; a reported id is missing and referenced |
| `PackageOrder.Search.Visit` | src/SpioPlatformProtocols/CompilePlan.cpp:421-447 | Lists an id after all it depends on, in the order of the simple recursion, and keeps what was listed, or explains the failure |
| `PackageOrder.Search.ReportCycle` | src/SpioPlatformProtocols/CompilePlan.cpp:427-433 | The reported list is a genuine cycle of the graph |
| `PackageOrder.OrderMeansAcyclic` | src/SpioPlatformProtocols/CompilePlan.cpp:408-461 | A dependencies-first order exists only for acyclic graphs without dangling ids |
| `PackageOrder.IndexById` | src/SpioPlatformProtocols/CompilePlan.cpp:410-414 | The index holds exactly the package ids, each with a package of that id |
| `PackageOrder.FirstIsIndexed` | src/SpioPlatformProtocols/CompilePlan.cpp:410-414 | Of several packages with one id the first is indexed |
| `PlanOrder.EarlyIsNeeded` | src/SpioPlatformProtocols/CompilePlan.cpp:449-460 | Of all build orders the one is chosen in which a package comes before another only when something needs it that is not later in text order |
| `PlanOrder.ListingIsForgotten` | src/SpioPlatformProtocols/CompilePlan.cpp:449-460 | With distinct ids the order in which the packages are listed makes no difference to the result |
| `ResolverModel.LockIdNamesPackage` | src/PlatformCore/Resolve/Resolver.cpp:108-120 | Equal lock ids force equal package names and source kinds |
| `ResolverModel.LockIdDetermines` | src/PlatformCore/Resolve/Resolver.cpp:108-120 | Where versions have no number sign, equal lock ids force equal names, kinds, versions and revisions or digests |
| `ResolverModel.JoinUpDown` | src/PlatformCore/Resolve/Resolver.cpp:50-53 | k times ".." followed by plain components leads k levels up, though not above the root, and then down |
| `ResolverModel.JoinTwice` | src/PlatformCore/Resolve/Resolver.cpp:50-53 | Going along one path and then along another is going along both |
| `ResolverModel.JoinUndoesRelative` | src/PlatformCore/Resolve/Resolver.cpp:87-93 | The relative path of a directory, followed from the root it was taken from, leads back to the directory |
| `ResolverModel.WithinIsPrefix` | src/PlatformCore/Resolve/Resolver.cpp:60-69 | A directory is within another exactly when the other is a prefix of it |
| `ResolverModel.SelectFromRoot` | src/PlatformCore/Resolve/Resolver.cpp:313-390 | A selection defines a package, of the expected name if one is given, relabelled as workspace exactly for top-level directories |
| `ResolverModel.PlainRootSelects` | src/PlatformCore/Resolve/Resolver.cpp:313-390 | Where no workspace is declared the package at the place itself is selected, exactly when it has the expected name |
| `ResolverModel.UnnamedSelects` | src/PlatformCore/Resolve/Resolver.cpp:329-334 | A workspace asked for no package in particular gives its root package, and an error exactly when it has none |
| `ResolverModel.NamedSelectsExactly` | src/PlatformCore/Resolve/Resolver.cpp:336-377 | A package asked for by name in a workspace is found exactly when every included member has a package and exactly one of root and members has the name, and then it is that one |
| `ResolverModel.ScanMembers` | src/PlatformCore/Resolve/Resolver.cpp:341-361 | The member loop finds exactly the matching members, in order, or the first failing one |
| `ResolverModel.Select` | src/PlatformCore/Resolve/Resolver.cpp:392-468 | A dependency is resolved to a directory that defines the package it names |
| `ResolverModel.PathLands` | src/PlatformCore/Resolve/Resolver.cpp:392-412 | A path dependency k levels up and down a plain path is looked for exactly there; it is refused when nothing is there, and for a git parent exactly when its snapshot root is not a prefix of the place |
| `ResolverModel.FetchedLands` | src/PlatformCore/Resolve/Resolver.cpp:414-468 | A git or registry dependency is selected in the checkout of just the source, revision, package and version it names |
| `ResolverModel.DependenciesInOrder` | src/PlatformCore/Resolve/Resolver.cpp:122-135 | Every dependency and dev-dependency once, in alias order |
| `ResolverModel.PathOrder` | src/PlatformCore/Resolve/Resolver.cpp:297-302 | Root seeds are ordered by path: a path before those it is a prefix of, otherwise the first component that differs decides |
| `ResolverModel.ReachableIsGenuine` | src/PlatformCore/Resolve/Resolver.cpp:379-412 | Every reachable local node is of workspace kind exactly when its directory is a top-level workspace directory |
| `ResolverModel.LocalReferencesAgree` | src/PlatformCore/Resolve/Resolver.cpp:379-412 | Path and workspace references to one directory are one node with one fingerprint |
| `ResolverModel.AmbiguousExactly` | src/PlatformCore/Resolve/Resolver.cpp:87-106 | Two reachable selections share a fingerprint exactly when two checkouts of one registry artifact are reachable at the same relative place |
| `ResolverModel.FingerprintsIdentify` | src/PlatformCore/Resolve/Resolver.cpp:441-468 | A registry that checks every artifact out at one place shares none, so there the answer always decides the problem itself |
| `Representatives.QuotientUnambiguous` | src/PlatformCore/Resolve/Resolver.cpp:476-479 | With one selection standing for each fingerprint nothing is ambiguous |
| `Representatives.QuotientFlaw` | src/PlatformCore/Resolve/Resolver.cpp:543-554 | A flaw among the representatives is a flaw of the problem itself, unless a fingerprint stands for packages of two names |
| `Resolver.SingleVersionResolver.ResolveNode` | src/PlatformCore/Resolve/Resolver.cpp:470-573 | The recursive search ends, only grows the table, keeps table and both indexes in agreement, draws every node from a seed or another node, and explains every failure by a flaw among the representatives |
| `Resolver.SingleVersionResolver.AddNode` | src/PlatformCore/Resolve/Resolver.cpp:520-523 | A new node joins the table and both indexes; one name fewer remains unused |
| `Resolver.SingleVersionResolver.CloseNode` | src/PlatformCore/Resolve/Resolver.cpp:562-572 | Recording sorted ids without repeats closes the node and leaves the rest of the table alone |
| `Resolver.SingleVersionResolver.ReportConflict` | src/PlatformCore/Resolve/Resolver.cpp:503-518 | A name found in the index belongs to another fingerprint, so the closure is flawed; the error tells versions from sources |
| `Resolver.SingleVersionResolver.CheckTarget` | src/PlatformCore/Resolve/Resolver.cpp:543-554 | A wrong package name or a self-dependency is an error; otherwise the node is the target |
| `Resolver.SingleVersionResolver.ResolveDependencies` | src/PlatformCore/Resolve/Resolver.cpp:525-560 | The loop collects exactly the ids and aliases of the declared dependencies and dev-dependencies |
| `ResolvedGraph.ResolveSingleVersionGraph` | src/PlatformCore/Resolve/Resolver.cpp:591-594 | Fails when the root is not in order. Otherwise, in every world, it decides the problem in which one reachable selection stands for each fingerprint: success exactly without a flaw, and then exactly the closure, with the ids and aliases of its selections. A success decides the problem itself exactly when no artifact is shared by two reachable checkouts, and overlooks a flaw exactly when it lies with a selection that the graph skips. Every error is a flaw, except a wrong package name where one digest has two contents. Where a dependency leads is told by `ResolverModel.PathLands`, `FetchedLands` and `NamedSelectsExactly` |
| `ResolvedGraph.ResolveGraph` | src/PlatformCore/Resolve/Resolver.cpp:159-223 | A result is closed under declared dependencies with exactly their ids and aliases, has distinct names, fingerprints and ids, packages sorted by id and sorted distinct root ids, and is the closure of representatives; an error is explained |
| `ResolvedGraph.BuildRootSeeds` | src/PlatformCore/Resolve/Resolver.cpp:256-311 | Succeeds exactly when the root loads and every member is an included package; the seeds are the root package and the members |
| `ResolvedGraph.ClosureIsExact` | src/PlatformCore/Resolve/Resolver.cpp:159-223 | On an unambiguous problem, and every problem of representatives is one, the graph holds exactly the selections reachable from the roots |
| `ResolvedGraph.ClosureIsSound` | src/PlatformCore/Resolve/Resolver.cpp:470-573 | On such a problem a single-version closure has none of the flaws, so success is never wrong |
| `ResolvedGraph.DecidesExactly` | src/PlatformCore/Resolve/Resolver.cpp:476-518 | The answer decides the problem itself exactly when fingerprints are unambiguous, or when it is an error and there is a flaw |
| `ResolvedGraph.UnnoticedExactly` | src/PlatformCore/Resolve/Resolver.cpp:476-518 | A graph is returned in spite of a flaw exactly when something is wrong with a reachable selection that none of its packages is |
| `ResolvedGraph.ErrorIsGenuine` | src/PlatformCore/Resolve/Resolver.cpp:470-573 | An error means a flaw, unless one fingerprint stands for packages of two names |
| `ResolvedGraph.ClosureFolded` | src/PlatformCore/Resolve/Resolver.cpp:470-573 | A closed set of nodes that stand for their fingerprints is the closure of the representatives |
| `RepublishedArtifact.ConflictUnnoticed` | src/PlatformCore/Resolve/Resolver.cpp:95-106 | One artifact under two versions, each checkout with a package below it: the closure has a name with two sources, and every resolution succeeds |
| `RepublishedArtifact.ResolveRepublished` | src/PlatformCore/Resolve/Resolver.cpp:591-594 | The resolver answers with a graph in that world |
| `RepublishedArtifact.RepublishedSameContent` | src/PlatformCore/Resolve/Resolver.cpp:441-468 | In that world the two checkouts have the same content |
| `RepublishedArtifact.WrongPackageReported` | src/PlatformCore/Resolve/Resolver.cpp:545-550 | One digest with two contents of different names: nothing is wrong with the closure, and every resolution fails |
| `ResolvedGraph.GraphNeverDangles` | src/SpioPlatformProtocols/CompilePlan.cpp:125-135 | On resolver output the unknown-id failure of the planner cannot occur |
| `RegistryTree.TransparencyRootHash` | src/PlatformCloud/PackageRegistry/ControlPlane/RegistryTrustMetadata.hpp:299-314 | The loop computes the hash chain over the leaf hashes |
| `RegistryTree.ChainCommits` | src/PlatformCloud/PackageRegistry/ControlPlane/RegistryTrustMetadata.hpp:299-314 | With a collision-free link, equal size and equal root force equal leaf lists |
| `RegistryTree.LeafSequence` | src/PlatformCloud/PackageRegistry/ControlPlane/RegistryTrustMetadata.hpp:282-297 | Lists every leaf number once, ascending |
| `RegistryTree.CollectLeafHashes` | src/PlatformCloud/PackageRegistry/ControlPlane/RegistryTrustMetadata.hpp:410-413 | On a log numbered 1..n the collected hashes are those of leaves 1, 2, ..., n |
| `RegistryTree.ReleasesExact` | src/PlatformCloud/PackageRegistry/ControlPlane/RegistryTrustMetadata.hpp:322-374 | With distinct versions every record is listed once with its own hash |
| `RegistryProtocol.AppendKeepsLeaves` | src/PlatformCloud/PackageRegistry/ControlPlane/RegistryPublishWorkflow.hpp:179-197 | An append takes the next number and overwrites no leaf |
| `RegistryProtocol.AppendReleases` | src/PlatformCloud/PackageRegistry/ControlPlane/RegistryPublishWorkflow.hpp:149-198 | After an append exactly one more (package, version) is released |
| `RegistryProtocol.AppendKeepsContent` | src/PlatformCloud/PackageRegistry/ControlPlane/RegistryPublishWorkflow.hpp:149-198 | Distinct versions, artifact digests, the match of log and index and the tie of every leaf to its record and artifact survive an append |
| `RegistryProtocol.AppendKeepsTied` | src/PlatformCloud/PackageRegistry/ControlPlane/RegistryPublishWorkflow.hpp:149-198 | Every leaf holds the artifact digest of its release and the hash of its record as published, the new one included |
| `RegistryProtocol.RefreshMakesTree` | src/PlatformCloud/PackageRegistry/ControlPlane/RegistryTrustMetadata.hpp:385-457 | After a refresh timestamp, snapshot, checkpoint and all targets files agree with the content |
| `RegistryProtocol.InitializeEmpty` | src/PlatformCloud/PackageRegistry/ControlPlane/RegistryTrustMetadata.hpp:459-517 | Initialising an empty root gives a consistent empty registry |
| `RegistryProtocol.InitializeIsIdle` | src/PlatformCloud/PackageRegistry/ControlPlane/RegistryTrustMetadata.hpp:459-517 | Initialising a consistent root changes nothing |
| `RegistryProtocol.CopyIsExact` | src/PlatformCloud/PackageRegistry/ControlPlane/RegistryIndexStore.hpp:257-284 | Copying a read plane onto an emptied one reproduces it exactly |
| `RegistryProtocol.MarkKeepsContent` | src/PlatformCloud/PackageRegistry/ControlPlane/RegistryPackageHandlers.cpp:361-389 | Marking releases keeps the content consistent: versions, artifacts, and leaves tied to the records as published |
| `RegistryProtocol.MarkIndexMarks` | src/PlatformCloud/PackageRegistry/ControlPlane/RegistryPackageHandlers.cpp:361-389 | After a mark every record of the release bears it, by fields: yanked with reason and time, or not yanked with an empty reason and no time; all its other fields and all other records are as before |
| `RegistryRuns.SequenceIsNew` | src/PlatformCloud/PackageRegistry/ControlPlane/RegistryControlPlane.cpp:117-123 | Whatever the database answers, the publication number exceeds all existing ones |
| `RegistryRuns.NextUnique` | src/PlatformCloud/PackageRegistry/ControlPlane/RegistryIndexStore.hpp:233-255 | The next number on disk is determined by the publications |
| `RegistryRuns.CreateWorks` | src/PlatformCloud/PackageRegistry/ControlPlane/RegistryControlPlane.cpp:107-264 | Creating a publication from a consistent tree never meets an existing one, keeps the invariant, adds one publication and remembers the previous one |
| `RegistryRuns.PublishWorks` | src/PlatformCloud/PackageRegistry/ControlPlane/RegistryPackageHandlers.cpp:6-184 | A publish is rejected exactly for a duplicate release; otherwise it makes one new publication and keeps the invariant |
| `RegistryRuns.YankWorks` | src/PlatformCloud/PackageRegistry/ControlPlane/RegistryPackageHandlers.cpp:338-423 | A yank or unyank is rejected exactly for an unknown release; otherwise it makes one new publication and keeps the invariant |
| `RegistryRuns.PromoteWorks` | src/PlatformCloud/PackageRegistry/ControlPlane/RegistryRepositoryHandlers.cpp:134-191 | Promotion keeps the invariant and all publications |
| `RegistryRuns.RollbackWorks` | src/PlatformCloud/PackageRegistry/ControlPlane/RegistryRepositoryHandlers.cpp:193-247 | Rollback keeps the invariant and all publications |
| `RegistryRuns.StepKeepsInv` | src/PlatformCloud/PackageRegistry/ControlPlane/RegistryControlPlane.cpp:107-264 | Every operation keeps the invariant, rewrites no publication and adds only greater numbers |
| `RegistryRuns.RunPreserves` | src/PlatformCloud/PackageRegistry/ControlPlane/RegistryControlPlane.cpp:107-264 | Along every run publications are immutable and their numbers grow, rollbacks included |
| `RegistryRuns.RunIsConsistent` | src/PlatformCloud/PackageRegistry/ControlPlane/RegistryRepositoryHandlers.cpp:52-76 | After every run the live plane is the publication of the default pointer, all pointers name publications, every publication's tree is consistent and its digests verify |
| `RegistryRuns.RollbackRestores` | src/PlatformCloud/PackageRegistry/ControlPlane/RegistryRepositoryHandlers.cpp:201-226 | A rollback right after publish, yank, unyank or promotion restores the earlier read plane exactly |
| `RegistryRuns.RollbackTwice` | src/PlatformCloud/PackageRegistry/ControlPlane/RegistryRepositoryHandlers.cpp:201-226 | Two rollbacks restore the whole state, both pointer fields included |
| `RegistryRuns.TargetsListRecords` | src/PlatformCloud/PackageRegistry/ControlPlane/RegistryTrustMetadata.hpp:322-374 | In a consistent tree the targets of a namespace list each index record once with its hash, and nothing else |
| `RegistryRuns.TrustCovers` | src/PlatformCloud/PackageRegistry/ControlPlane/RegistryTrustMetadata.hpp:385-457 | In a consistent tree the timestamp names the snapshot, and the snapshot names exactly the index files, the targets files and the checkpoint, each by version and hash |
| `RegistryRuns.UnyankRestoresExactly` | src/PlatformCloud/PackageRegistry/ControlPlane/RegistryPackageHandlers.cpp:361-389 | Yank followed by unyank gives back the same index records exactly when every record of the version was unmarked with an empty reason before |
| `RegistryLogs.RunTraced` | src/PlatformCloud/PackageRegistry/ControlPlane/RegistryPublishWorkflow.hpp:179-197 | After every run, restarts included, in which no release is published twice, the logs of all publications form a tree: two that agree on a leaf agree on all earlier ones, and every leaf is of a release published in the run |
| `RegistryLogs.ExtendsExactly` | src/PlatformCloud/PackageRegistry/ControlPlane/RegistryPublishWorkflow.hpp:179-197 | After every such run one log extends another exactly when they agree on the last leaf of the shorter |
| `RegistryLogs.PublishExtends` | src/PlatformCloud/PackageRegistry/ControlPlane/RegistryPackageHandlers.cpp:6-184 | The log of a new publication of a release not published before extends exactly the logs that the live log extends, and no other log extends it |
| `RegistryLogs.MoveForksExactly` | src/PlatformCloud/PackageRegistry/ControlPlane/RegistryRepositoryHandlers.cpp:201-226 | After a promotion or rollback of the default distribution and a publish of a release not published before, the log forks exactly when the move lost a leaf |
| `RegistryLogs.LogGrows` | src/PlatformCloud/PackageRegistry/ControlPlane/RegistryControlPlane.cpp:107-264 | Without such a move the live log only grows along a run |
| `RegistryLogs.CheckpointsCommit` | src/PlatformCloud/PackageRegistry/ControlPlane/RegistryTrustMetadata.hpp:410-424 | After every run, with hashes that do not collide, two publications show one tree size and one root exactly when their leaves are the same |
| `RegistryLogs.UninterruptedNeverRepeats` | src/PlatformCloud/PackageRegistry/ControlPlane/RegistryPackageHandlers.cpp:63-86 | In a run without a restart no release is published twice |
| `RegistryRestarts.RestartForgets` | src/PlatformStorage/PlatformPersistence/MemoryStateStore.cpp:337-345 | After a restart a release is accepted exactly when the live tree lacks it and the database does not know it |
| `RegistryRestarts.PublishKeepsForestExactly` | src/PlatformCloud/PackageRegistry/ControlPlane/RegistryPublishWorkflow.hpp:179-197 | A publish keeps the logs a tree exactly when every log that already holds the new leaf extends the live log |
| `RegistryRestarts.RunForestExactly` | src/PlatformCloud/PackageRegistry/ControlPlane/RegistryPublishWorkflow.hpp:179-197 | After every run, restarts included, the logs form a tree exactly when every publish was of that kind |
| `RegistryRestarts.RestartBreaks` | src/PlatformCloud/PackageRegistry/ControlPlane/RegistryPackageHandlers.cpp:6-184 | From any state with a publication and for any three new releases, a run with a restart after which the logs are no tree |
| `RegistryMarks.RunAgrees` | src/PlatformCloud/PackageRegistry/ControlPlane/RegistryPackageHandlers.cpp:361-389 | After every run each record, in the live tree and in every publication, bears the last mark of its release in its history by fields, and none when the release was never marked there; only releases were marked |
| `RegistryMarks.YankedExactly` | src/PlatformCloud/PackageRegistry/ControlPlane/RegistryPackageHandlers.cpp:361-389 | After every run, in the live tree and in every publication, a release is yanked exactly when the last mark in its history was a yank, with the reason and time of that yank |
| `RegistryMarks.LeafTells` | src/PlatformCloud/PackageRegistry/ControlPlane/RegistryPublishWorkflow.hpp:184-195 | In a consistent tree a leaf holds its release's artifact, and the hash of the index record exactly when that carries no mark |
| `RegistryMarks.LeafMatchesExactly` | src/PlatformCloud/PackageRegistry/ControlPlane/RegistryPublishWorkflow.hpp:184-195 | After every run, in every publication: the leaf holds the artifact of its release, and the hash of its index record exactly when the release was never marked in the history of that publication |
| `RegistryMarks.UnyankLeavesTrace` | src/PlatformCloud/PackageRegistry/ControlPlane/RegistryPackageHandlers.cpp:361-389 | In any state, for any live release: after yank and unyank it is not yanked, and its record is not the one that the log committed to |
| `RegistryEffects.PublishAnswer` | src/PlatformCloud/PackageRegistry/ControlPlane/RegistryPackageHandlers.cpp:6-184 | A publish is accepted exactly when the release is new to memory, database and index, and then: one record, artifact and leaf more, with these fields; versions one up; the new root links the leaf to the old root; one publication that is the live tree, with the least number allowed, described by its manifest and pointed at; the release remembered; nothing else changed |
| `RegistryEffects.YankAnswer` | src/PlatformCloud/PackageRegistry/ControlPlane/RegistryPackageHandlers.cpp:338-423 | A yank or unyank is accepted exactly for a known release, and then its records bear the mark, everything else in the index, the artifacts and the log are as before, versions are one up, and one publication is the live tree |
| `RegistryEffects.PromoteAnswer` | src/PlatformCloud/PackageRegistry/ControlPlane/RegistryRepositoryHandlers.cpp:134-191 | A promotion is refused exactly for an unknown publication; otherwise the distribution points at it and remembers the one before, and the default one brings its tree back |
| `RegistryEffects.RollbackAnswer` | src/PlatformCloud/PackageRegistry/ControlPlane/RegistryRepositoryHandlers.cpp:193-247 | A rollback is refused exactly when nothing is remembered; otherwise the two ends of the pointer change places, and the default one brings the tree back |
| `RegistryEffects.RefreshAdvances` | src/PlatformCloud/PackageRegistry/ControlPlane/RegistryTrustMetadata.hpp:385-457 | A refresh raises the versions of checkpoint, snapshot, timestamp and the targets files in use by one, and changes no content |
| `RegistryEffects.LogExtends` | src/PlatformCloud/PackageRegistry/ControlPlane/RegistryTrustMetadata.hpp:299-314 | With one leaf more the checkpoint's root is the link of the old root and the hash of that leaf |
| `Registry.ControlPlane.HandlePublish` | src/PlatformCloud/PackageRegistry/ControlPlane/RegistryPackageHandlers.cpp:6-184 | Accepted exactly for a new release. The handler's file updates in order equal the publish step, with the effect told field by field, or leave everything alone; the invariant holds after |
| `Registry.ControlPlane.HandleSetYanked` | src/PlatformCloud/PackageRegistry/ControlPlane/RegistryPackageHandlers.cpp:338-423 | Accepted exactly for a known release. The handler's file updates in order equal the yank step, so exactly the records of the release bear the mark, or leave everything alone |
| `Registry.ControlPlane.HandlePromote` | src/PlatformCloud/PackageRegistry/ControlPlane/RegistryRepositoryHandlers.cpp:134-191 | Refused exactly for an unknown publication; otherwise pointer and live tree move there |
| `Registry.ControlPlane.HandleRollback` | src/PlatformCloud/PackageRegistry/ControlPlane/RegistryRepositoryHandlers.cpp:193-247 | Refused exactly when nothing is remembered; otherwise the pointer's ends change places and the live tree follows |
| `Registry.ControlPlane.Restart` | src/PlatformStorage/PlatformPersistence/MemoryStateStore.cpp:337-345 | What was remembered in memory is lost, what is on disk stays, and the invariant holds |
| `Registry.ControlPlane.CreatePublication` | src/PlatformCloud/PackageRegistry/ControlPlane/RegistryControlPlane.cpp:107-264 | The staged copy of the live plane becomes a publication, its config is copied back and the default pointer moves to it, as the creation step says, or everything is left alone |
| `Registry.ControlPlane.MaterializePublication` | src/PlatformCloud/PackageRegistry/ControlPlane/RegistryIndexStore.hpp:276-284 | The live plane becomes exactly the publication's tree |
| `Registry.ControlPlane.NextSequenceOnDisk` | src/PlatformCloud/PackageRegistry/ControlPlane/RegistryIndexStore.hpp:233-255 | The loop finds one more than the greatest publication number |
| `Registry.ControlPlane.AppendRelease` | src/PlatformCloud/PackageRegistry/ControlPlane/RegistryPublishWorkflow.hpp:149-198 | The writes of artifact, index and leaf equal the append step, or the duplicate is refused |
| `Registry.ControlPlane.RefreshMetadata` | src/PlatformCloud/PackageRegistry/ControlPlane/RegistryTrustMetadata.hpp:385-457 | The writes of targets, checkpoint, snapshot and timestamp equal the refresh step |
| `Registry.ControlPlane.MarkReleases` | src/PlatformCloud/PackageRegistry/ControlPlane/RegistryPackageHandlers.cpp:361-389 | The loop gives exactly the records of the version the mark, by fields, and tells whether there was one |
| `Sha256Stream.HashChunks` | src/PlatformCore/Core/Sha256.cpp:187-211 | For every message and every split into updates the printed digest is the one-shot SHA-256 of the whole |
| `Sha256Stream.Sha256.Update` | src/PlatformCore/Core/Sha256.cpp:21-37 | After an update the object has absorbed the longer message, whatever stale bytes the buffer holds |
| `Sha256Stream.Sha256.FinalHex` | src/PlatformCore/Core/Sha256.cpp:39-68 | Pads with one or two blocks and prints the digest of what was absorbed |
| `Sha256Stream.Sha256.Transform` | src/PlatformCore/Core/Sha256.cpp:117-165 | One block changes the state as the compression of section 6.2.2 does |
| `Sha256Stream.Sha256.ExtendWords` | src/PlatformCore/Core/Sha256.cpp:128-132 | The in-place schedule is the message schedule of section 6.2.2 |
| `Sha256Stream.Sha256.MixWords` | src/PlatformCore/Core/Sha256.cpp:134-155 | The eight shifted variables after the loop are the result of sixty-four rounds |
| `Sha256Stream.Sha256.WriteLength` | src/PlatformCore/Core/Sha256.cpp:54-58 | The last eight bytes become the big-endian bit length, the rest is unchanged |
| `Sha256Stream.Sha256.HexState` | src/PlatformCore/Core/Sha256.cpp:61-67 | The stream formatting prints every word with exactly eight lower-case digits |
| `Sha256Stream.PadTail` | src/PlatformCore/Core/Sha256.cpp:39-51 | The padded message after its whole blocks is one block when 55 or fewer bytes wait, otherwise two |
| `Sha256Stream.LengthOfTotal` | src/PlatformCore/Core/Sha256.cpp:54-54 | A counter that wraps at 64 bits still writes the length modulo 2^64 |
| `Sha256Example.KnownAnswer` | src/PlatformCore/Core/Sha256.cpp:39-165 | The digest of "abc" is the one that FIPS 180-4 gives as its example |
| `Sha256Constants.ConstantsAreRoots` | src/PlatformCore/Core/Sha256.cpp:71-80 | Round constant t is the fractional part of the cube root of the t-th prime, to 32 bits |
| `Sha256Constants.InitialIsRoots` | src/PlatformCore/Core/Sha256.cpp:167-176 | The initial words are the fractional parts of the square roots of the first eight primes, to 32 bits |
| `Sha256Constants.FirstPrimes` | src/PlatformCore/Core/Sha256.cpp:71-80 | The primes meant are the first sixty-four: all primes up to 311, ascending |
| `Sha256Spec.RotationsRotate` | src/PlatformCore/Core/Sha256.cpp:82-85 | The two shifts and the disjunction are a rotation for all ten amounts used |
| `Sha256Spec.SelectAndMajority` | src/PlatformCore/Core/Sha256.cpp:87-95 | Ch selects bit by bit and Maj takes the majority of each bit |
| `Sha256Spec.ZeroCountIsLeast` | src/PlatformCore/Core/Sha256.cpp:39-52 | The number of padding zeros is the least that leaves eight bytes of a block, as section 5.1.1 demands |
| `JobIds.JobIdInjective` | src/PlatformStorage/PlatformPersistence/PostgresStore.cpp:737-751 | Different sequence numbers give different identifiers, beyond twelve digits too |
| `JobIds.JobIdOrder` | src/PlatformStorage/PlatformPersistence/MemoryStateStore.cpp:13-25 | Below 10^12 identifier order is numeric order |
| `JobIds.JobIdOrderExactly` | src/PlatformStorage/PlatformPersistence/MemoryStateStore.cpp:13-25 | The order of any two identifiers is that of their numbers, the longer one cut to the width of the shorter |
| `JobIds.JobIdOrderEnds` | src/PlatformStorage/PlatformPersistence/MemoryStateStore.cpp:13-25 | At 10^12 it is not: the later identifier comes first |
| `PostgresJobs.EventsFollowLifecycle` | src/PlatformStorage/PlatformPersistence/PostgresStore.cpp:1002-1209 | In every reachable state a job's events are queued, running*, at most one terminal, and the row agrees with them |
| `PostgresJobs.JobsOnlyMoveOn` | src/PlatformStorage/PlatformPersistence/PostgresStore.cpp:670-705 | Between any two points of a run: submitted data fixed, log only grows, owner never changes, never queued again, an ended job does not change at all |
| `PostgresJobs.ClaimedAtMostOnce` | src/PlatformStorage/PlatformPersistence/PostgresStore.cpp:1002-1127 | Over every run the number of claims of a job is one when it has an owner and zero otherwise |
| `PostgresJobs.ClaimsExactly` | src/PlatformStorage/PlatformPersistence/PostgresStore.cpp:1002-1127 | Over every run a step claims a job exactly when it is a claim that picks it for a worker registered in the region and pool of the request, and through a container only of its tenant and user; the job then belongs to that worker |
| `PostgresJobs.BindingNeverChanges` | src/PlatformStorage/PlatformPersistence/PostgresStore.cpp:887-952 | A container keeps worker, tenant and user of its first registration |
| `PostgresJobs.GenerationCountsMoves` | src/PlatformStorage/PlatformPersistence/PostgresStore.cpp:970-992 | The generation is one plus the number of switches and claims that changed the workspace |
| `PostgresJobs.RegistrationMoves` | src/PlatformStorage/PlatformPersistence/PostgresStore.cpp:917-923 | A run in which a repeated registration moves a container and leaves its generation at one |
| `PostgresJobs.ClaimServes` | src/PlatformStorage/PlatformPersistence/PostgresStore.cpp:1046-1127 | A claim through a container takes a job of its tenant and user for its worker and moves it to the job's workspace |
| `PostgresJobs.ClaimServesForever` | src/PlatformStorage/PlatformPersistence/PostgresStore.cpp:1046-1127 | Job and container stay matched in every later state |
| `PostgresJobs.ArtifactsKeyed` | src/PlatformStorage/PlatformPersistence/PostgresStore.cpp:486-492 | In every reachable state artifact ids are unique over all jobs |
| `PostgresJobs.TakenForGood` | src/PlatformStorage/PlatformPersistence/PostgresStore.cpp:1182-1188 | An artifact id of an ended job is never usable for another job: every completion that reports it changes nothing |
| `PostgresJobs.SecondUnnamedFails` | src/PlatformCloud/DeveloperWorkspace/WorkspaceControlPlane.cpp:390-399 | A run in which two jobs each report an artifact without an id: the first succeeds, the second stays running |
| `PostgresStore.Store.NextJobId` | src/PlatformStorage/PlatformPersistence/PostgresStore.cpp:737-751 | Draws the next identifier and advances the sequence |
| `PostgresStore.Store.SubmitJob` | src/PlatformStorage/PlatformPersistence/PostgresStore.cpp:753-784 | Inserts a row, or resets status, owner, user and workspace of an existing one and keeps its other columns, and logs queued |
| `PostgresStore.Store.CancelJob` | src/PlatformStorage/PlatformPersistence/PostgresStore.cpp:830-862 | Cancels exactly queued and running jobs |
| `PostgresStore.Store.RegisterContainer` | src/PlatformStorage/PlatformPersistence/PostgresStore.cpp:887-952 | Accepts exactly a registered worker in place and an unchanged binding, and tells which of the two is wrong; generation survives a repeat |
| `PostgresStore.Store.SwitchWorkspace` | src/PlatformStorage/PlatformPersistence/PostgresStore.cpp:970-992 | Moves an active container of the worker; raises the generation only for another workspace |
| `PostgresStore.Store.ClaimJob` | src/PlatformStorage/PlatformPersistence/PostgresStore.cpp:1002-1044 | By columns: takes an oldest queued job of this region and pool; nothing is returned exactly when there is none; fails exactly for a worker not registered there |
| `PostgresStore.Store.ClaimJobFor` | src/PlatformStorage/PlatformPersistence/PostgresStore.cpp:1046-1127 | By columns: the same within the container's tenant and user; the container follows the job and counts the move |
| `PostgresStore.Store.HeartbeatJob` | src/PlatformStorage/PlatformPersistence/PostgresStore.cpp:1137-1161 | Logs running exactly for the owner of a running job |
| `PostgresStore.Store.CompleteJob` | src/PlatformStorage/PlatformPersistence/PostgresStore.cpp:1163-1209 | Ends a running job of this worker exactly when the reported artifact ids are distinct and unused by other jobs, replacing its artifacts; with an unusable id it fails, and for any other job it finds none, and both change nothing |
| `PostgresStore.Store.InsertArtifacts` | src/PlatformStorage/PlatformPersistence/PostgresStore.cpp:1182-1188 | The insert loop stores all artifacts exactly when their ids are distinct and no other job has one |
| `MemoryJobs.LastEventIsStatus` | src/PlatformStorage/PlatformPersistence/MemoryStateStore.cpp:26-36 | In every reachable state a job's last event has the job's status, and queued events come first |
| `MemoryJobs.JobsOnlyMoveOn` | src/PlatformStorage/PlatformPersistence/MemoryStateStore.cpp:158-281 | Between any two points of a run: never queued again, owner fixed once not queued, ended stays ended |
| `MemoryJobs.ClaimedAtMostOnce` | src/PlatformStorage/PlatformPersistence/MemoryStateStore.cpp:158-230 | No job is claimed twice; a running job was claimed once |
| `MemoryJobs.ClaimsExactly` | src/PlatformStorage/PlatformPersistence/MemoryStateStore.cpp:158-230 | Over every run a step claims a job exactly when the job is the least in text order of those queued for the region and pool of the call, and through a container only of its tenant and user |
| `MemoryJobs.ClaimTakesSmallest` | src/PlatformStorage/PlatformPersistence/MemoryStateStore.cpp:158-180 | While fewer than 10^12 identifiers exist a claim takes the matching queued job with the smallest number, and none exactly when there is none |
| `MemoryJobs.ClaimForTakesSmallest` | src/PlatformStorage/PlatformPersistence/MemoryStateStore.cpp:182-230 | The same for a claim through a container |
| `MemoryJobs.SmallestFailsBeyond` | src/PlatformStorage/PlatformPersistence/MemoryStateStore.cpp:158-180 | With numbers 10^12-1 and 10^12 waiting, the later is taken |
| `MemoryJobs.LaterJobTakenFirst` | src/PlatformStorage/PlatformPersistence/MemoryStateStore.cpp:158-180 | A run that reaches that state and claims the later job while the earlier one waits |
| `MemoryJobs.OutcomeChangesExactly` | src/PlatformStorage/PlatformPersistence/MemoryStateStore.cpp:58-76 | A call changes the status of an ended job exactly when it cancels it, or completes it in its owner's name, with another outcome |
| `MemoryJobs.OutcomeOverwritten` | src/PlatformStorage/PlatformPersistence/MemoryStateStore.cpp:252-281 | A run in which an unclaimed job succeeds in the empty name and is cancelled afterwards |
| `MemoryJobs.BindingNeverChanges` | src/PlatformStorage/PlatformPersistence/MemoryStateStore.cpp:92-116 | A container keeps worker, tenant and user of its first registration |
| `MemoryJobs.GenerationCountsMoves` | src/PlatformStorage/PlatformPersistence/MemoryStateStore.cpp:92-156 | The generation is one plus the moves since the latest accepted registration |
| `MemoryJobs.ClaimServes` | src/PlatformStorage/PlatformPersistence/MemoryStateStore.cpp:182-230 | A claim through a container matches tenant, user and worker and moves the container to the job's workspace |
| `MemoryJobs.ClaimServesForever` | src/PlatformStorage/PlatformPersistence/MemoryStateStore.cpp:182-230 | Job and container stay matched in every later state |
| `MemoryStore.Store.NextJobId` | src/PlatformStorage/PlatformPersistence/MemoryStateStore.cpp:13-25 | The padding loop prints the identifier of the next number |
| `MemoryStore.Store.FirstMatch` | src/PlatformStorage/PlatformPersistence/MemoryStateStore.cpp:164-179 | Walking the keys in order finds the least match, or none exactly when there is none |
| `MemoryStore.Store.ClaimJob` | src/PlatformStorage/PlatformPersistence/MemoryStateStore.cpp:158-180 | By columns: takes the least queued job of this region and pool and logs it; fails exactly for an unknown worker |
| `MemoryStore.Store.ClaimJobFor` | src/PlatformStorage/PlatformPersistence/MemoryStateStore.cpp:182-230 | By columns: the same within the container's tenant and user; the container follows the job and counts the move |
| `MemoryStore.Store.RegisterContainer` | src/PlatformStorage/PlatformPersistence/MemoryStateStore.cpp:92-116 | Accepts exactly a registered worker in place and an unchanged binding, tells what is wrong otherwise, and overwrites the whole record |
| `MemoryStore.Store.SwitchWorkspace` | src/PlatformStorage/PlatformPersistence/MemoryStateStore.cpp:128-156 | An error exactly for another worker's container; otherwise moves an active one |
| `MemoryStore.Store.CancelJob` | src/PlatformStorage/PlatformPersistence/MemoryStateStore.cpp:58-76 | Cancels any known job, whatever its status |
| `MemoryStore.Store.HeartbeatJob` | src/PlatformStorage/PlatformPersistence/MemoryStateStore.cpp:232-250 | Logs the current status exactly for the recorded owner |
| `MemoryStore.Store.CompleteJob` | src/PlatformStorage/PlatformPersistence/MemoryStateStore.cpp:252-281 | Sets the given status exactly for the recorded owner and adds artifacts |
| `RateLimiter.PlatformRateLimiter.Allow` | src/PlatformService/PlatformOps/OpsManager.cpp:6-25 | Without a positive limit and window everything is allowed and nothing recorded; otherwise only the bucket of the key changes |
| `RateLimiter.KeysAreIndependent` | src/PlatformService/PlatformOps/OpsManager.cpp:17-24 | In any interleaving the bucket of a key depends on that key's calls only |
| `RateLimiter.KeysCollideExactly` | src/PlatformService/PlatformOps/OpsManager.cpp:17-17 | Exactly which pairs share a key; none do when operations have no colon |
| `RateLimiter.AdmitsFirstOfWindow` | src/PlatformService/PlatformOps/OpsManager.cpp:18-24 | Exactly the first `limit` calls of each window are admitted, for every steady clock |
| `RateLimiter.SlidingBound` | src/PlatformService/Router.cpp:35-38 | Over any run on any keys with a steady clock that does not run backwards, any interval of window length admits at most 2 * limit - 1 calls of a key |
| `RateLimiter.BoundIsReached` | src/PlatformService/PlatformOps/OpsManager.cpp:6-25 | For every limit and every window above one that number is reached |
| `RateLimiter.SecondBound` | src/PlatformService/PlatformOps/OpsManager.cpp:18-24 | With a window of one second the bound is the limit |
| `RateLimiter.SecondBoundIsReached` | src/PlatformService/PlatformOps/OpsManager.cpp:18-24 | And it is reached for every limit |
| `RateLimiter.TracksExactly` | src/PlatformService/PlatformOps/OpsManager.cpp:18-23 | The bucket follows the windows at every call exactly when no window opened at time zero gets a second call |
| `RateLimiter.ZeroClockIsUnlimited` | src/PlatformService/PlatformOps/OpsManager.cpp:18-22 | At time zero no call is ever refused |
| `Lockfile.CanonicalText` | src/PlatformCore/Manifest/Lockfile.cpp:236-285 | Two lockfiles with distinct ids and well-shaped sources print alike exactly when they are equal up to package and dependency order |
| `LockfileRoundTrip.RoundTrip` | src/PlatformCore/Manifest/Lockfile.cpp:125-285 | Any lockfile with well-shaped sources: its text parses as TOML exactly when no printed text holds a control character other than a tab, and then the loader is given the same metadata and the same packages with the same fields, in printed order; it passes the loader's rules exactly when the original does |
| `LockfileRoundTrip.BasicReads` | src/PlatformCore/Manifest/Lockfile.cpp:113-118 | A quoted text reads back as itself, and is refused exactly for a control character |
| `LockfileRoundTrip.BodyReads` | src/PlatformCore/Manifest/Lockfile.cpp:252-281 | The lines of a package read back as exactly its table |
| `Lockfile.QuoteDetermines` | src/PlatformCore/Manifest/Lockfile.cpp:113-118 | Quoted text is prefix-free: it determines the string and what follows |
| `Lockfile.SourceDetermines` | src/PlatformCore/Manifest/Lockfile.cpp:259-268 | The printed source lines determine the source fields of a well-shaped package |
| `Lockfile.SortForgetsOrder` | src/PlatformCore/Manifest/Lockfile.cpp:244-250 | With distinct ids, sorting by id forgets exactly the order |
| `LockfileIo.SerializeLockfileCanonical` | src/PlatformCore/Manifest/Lockfile.cpp:236-285 | The printing loops produce the canonical text |
| `LockfileIo.LoadLockfile` | src/PlatformCore/Manifest/Lockfile.cpp:125-234 | A parsed file is accepted exactly when it represents a valid lockfile, and that one is returned; an error names something that is wrong with the file |
| `LockfileIo.LoadPackage` | src/PlatformCore/Manifest/Lockfile.cpp:170-231 | A package table is accepted exactly when it says what a valid package says; an error names a missing field or a broken rule |
| `LockfileIo.CheckSource` | src/PlatformCore/Manifest/Lockfile.cpp:194-228 | The nested checks accept exactly the source fields of the source kind; an error names a fault |
| `YamlScalar.ScalarRoundTrip` | scripts/styio_yaml.py:33-53 | A scalar comes back exactly when it is not a text that is written bare and reads as a keyword or an integer |
| `YamlScalar.TwoReplacements` | scripts/styio_yaml.py:117-117 | The two replacements in sequence escape every backslash and quote exactly once |
| `YamlScalar.QuotedReadsBack` | scripts/styio_yaml.py:107-118 | Every text comes back from its quoted form |
| `YamlRules.WrittenPlainly` | scripts/styio_yaml.py:114-116 | A text is written without quotes exactly when it is not empty and made of letters, digits and . - _ / : |
| `YamlRules.SingleQuotedReads` | scripts/styio_yaml.py:44-45 | Any text in single quotes with its own doubled reads back as itself |
| `YamlRules.KeywordsExactly` | scripts/styio_yaml.py:33-41 | Exactly true, false and null, in any case, and a tilde are read as keywords |
| `YamlRules.NumbersAsTexts` | scripts/styio_yaml.py:46-53 | A plus sign or a leading zero makes a text of a number |
| `YamlRules.GroupedRead` | scripts/styio_yaml.py:46-53 | Digits grouped by an underscore read as the joined number, behind a minus sign too |
| `YamlRoundTrip.RoundTrip` | scripts/styio_yaml.py:121-130 | Loading the dump of a nested mapping gives it back exactly when it holds no ambiguous text |
| `YamlRoundTrip.LoadOfDump` | scripts/styio_yaml.py:56-92 | Loading a dump always succeeds, with the same keys, nesting and order |
| `YamlRoundTrip.PlaceMapping` | scripts/styio_yaml.py:78-91 | The stack of open mappings adds exactly the entries of a mapping to the one they are indented under |
| `YamlRoundTrip.DumpIsFlat` | scripts/styio_yaml.py:121-130 | Apart from empty lines a dump consists of one line for each entry, at its depth, in order |
| `YamlRoundTrip.ScanQuoted` | scripts/styio_yaml.py:12-30 | The comment scanner passes over any quoted text, escapes and hash signs included |
| `YamlRules.CommentCut` | scripts/styio_yaml.py:12-30 | Without quotes a line is cut at the first hash that begins it or follows a blank, and nowhere else |
| `YamlRules.ScanSingle` | scripts/styio_yaml.py:12-30 | The comment scanner passes over a text in single quotes |
| `YamlRules.CommentLines` | scripts/styio_yaml.py:60-62 | A comment line, indented or not, says nothing |
| `YamlRules.TabRefused` | scripts/styio_yaml.py:63-64 | A tab in the indentation is refused |
| `YamlRules.OddRefused` | scripts/styio_yaml.py:65-67 | An odd indentation is refused, whatever the content |
| `YamlRules.ContentRefused` | scripts/styio_yaml.py:68-72 | Then exactly the lines that begin with a dash and a space are refused as lists, and exactly the others without a colon as such |
| `YamlRules.PairRead` | scripts/styio_yaml.py:73-76 | Otherwise the key is the text before the first colon and the value the rest, both without blanks around them; an empty key is refused |
| `YamlPaths.LineLands` | scripts/styio_yaml.py:78-91 | Behind any lines that load, an entry with n levels of indentation goes under the first n open keys: its value stands at that path, nothing away from that path changes, and it is refused exactly when fewer are open or its value cannot be read |
| `YamlRoundTrip.IntegerTextIsLost` | scripts/styio_yaml.py:33-53 | A text that spells an integer comes back as the integer |
| `YamlLoader.LoadYamlMapping` | scripts/styio_yaml.py:56-92 | The loop over lines and the popping stack compute the loader's function |
| `YamlLoader.StripYamlComment` | scripts/styio_yaml.py:12-30 | The scanner with its two flags cuts the line at its comment |

## Left out

- HTTP, TLS, routing, envelopes, authorization tables and the daemon: plumbing and finite tables.
- Process spawning, git fetching, source builds, the registry client and the worker loop: effects on external tools.
- CompileStress.StressRunner.BuildSummary: average latency, throughput and failure rates are real numbers here,
  because their rounding for print does not enter any decision. Only for the percentile ranks is it proved that
  floating point makes no difference.
- CompileStress.RunStress: the makespan is bounded from both sides and not given in closed form, because it depends on
  the whole schedule.
- Constraints of the database other than the key of the artifact table, and the width of integer columns.
- Emitted log events of the stress run: they are written and never read.
- The resolver's manifest reader: manifests are given as parsed values, missing and unreadable ones are one case, and
  the name pattern is the hypothesis `WellNamed`. The registry version of a dependency is part of the fetch function.
- Registry signatures, expiry dates, file lengths and the latest-version field: opaque or carried along; leaf file
  names are identified with their numbers, which is their order below 10^12.
- Object storage, mirror sync, recovery restore, release channels, and failures part-way through a mutation: they
  replace or tear the tree outside the modelled protocol. Answers of the registry database are arbitrary inputs.
- Timestamps in the job stores other than the creation time that orders claims: no decision depends on them.
- The interleaving of the two statements inside a Postgres heartbeat: each store call is one atomic step. Rows locked
  by other transactions are covered, because a claim in a run may take any matching queued job or none.
- The tenant and user fields that a switch request may add: they only refuse more requests.
- PostgresStore.Store.ClaimJob: without a transaction in progress no row is locked, so the oldest row is taken.
- Overflow of the limiter's call counter: it is unbounded here.
- TOML beyond what the printer uses (comments, other types, dotted and quoted keys, multi-line strings, other escapes):
  the loader starts from a parsed table, and `Toml` reads the printed form only. The patterns for names, versions and
  digests are taken as predicates.
- ResolverModel.SelectFromRoot: when several members of a workspace cannot be loaded, which of them is reported; the
  members are ordered by components here, not by the text of the path.
- The clock within one registry call: one time stands for all the readings of a call.
- The package id, labels and wording of errors, and texts of log events other than those of the job stores.
- Lockfiles with repeated ids: the order that the sort leaves them in is not specified.
- Escape sequences other than of a backslash or a quote, line numbers in errors, non-ASCII text, and the interpreter's
  limit on the number of digits of an integer: outside the YAML model.
