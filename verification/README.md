# A verified model of the signal bot's state machines, loops and arithmetic

Dafny 4.11. `dafny verify dfyconfig.toml` checks everything.

The project models seven parts of the crypto signal bot and proves what they
are for. Where the original works by updating fields or variables, the model
has the same class or loop, proved equal to a function of the old state; the
theorems are then stated about those functions, over all inputs, all runs and
all behaviours of the network, the clock and the exchange.

| files | part of the system |
|---|---|
| `ModuleNames`, `ImportCycles`, `CycleFinder` | the import-cycle check: depth-first search and whitelist decision |
| `ScaleWeights`, `Targets`, `TargetOrder`, `TargetNumbers`, `TradePlan`, `PlanNumbers`, `SignalContract`, `ContractRules` | the trade-plan builder and the validator that checks its plans |
| `Telegram`, `TelegramHistory`, `TelegramSafety`, `TelegramDelivery`, `TelegramRequests`, `TelegramProvenance`, `TelegramLoss`, `TelegramBroadcaster` | the message sender: circuit breaker, duplicate window, retry buffer, flood control |
| `RateLimit` | the dashboard's sliding-window limiter |
| `Migrations`, `MigrationRegistry`, `RegistryRuns` | forward schema migrations with deferral, transactions and crashes, and the shipped registry |
| `Vectors`, `Regression`, `Drawdown`, `Rsi`, `WilderAverage`, `Rounding` | least squares and R squared, drawdown, Wilder RSI, Python's rounding |
| `Klines`, `Outcomes`, `LineBuffer` | paginated bar download, bar-by-bar replay, stderr line splitter |

## How to read the model

* Floats are exact reals, times are integers (microseconds for the sender,
  milliseconds for bars, minutes for plan expiry) or reals, clocks do not go
  back. A text stands for its own hash.
* The network is a function from the number of the request to how long it
  waits, how long it takes and how it ends; every theorem about the sender
  quantifies over all such functions. Exceptions come in two kinds, those in
  `DEFENSIVE_EXC` (`Caught`) and the others (`Uncaught`), each possibly with a
  retry-after time.
* The sender's state carries a log of attempts, successes, counted failures,
  and messages entering and leaving the retry buffer. The log is history only:
  nothing reads it.
* A migration run may fail in any transaction, or in the integrity check after
  any commit; a killed process is the first of these.

## Where the code does not do what it says

Each is a lemma below, with the exact condition beside it.

* The import check says new cycles fail it (`check_circular_imports.py:4-5`).
  Take a whitelisted pair x, y and a module z with x, y, z in sort order, and
  imports x -> y, x -> z, y -> x, z -> y: the cycle through z is new and the
  check passes (`MissedCycle`). New cycles are always caught if and only if no
  whitelisted set has two modules (`NewCyclesFailIffSingletons`); the shipped
  whitelist has four pairs.
* The builder is meant to leave nothing for the validator to object to
  (`contract.py:367-371`). With an ascending ladder from the minimum up,
  default weights and time left, two families of requests still lead to a
  rejected plan: a long stopped inside a zone no higher than the clearance, and
  a short whose price floor is too close for the minimum reward. `PlanIssues`
  gives the exact list of objections under such a ladder and any weights,
  `PlanPassesIff` the condition on the request.
* `_normalize_targets` ignores the order of its inputs for the prices but not
  for the status (`StatusDependsOnOrder`). For longs under an ascending ladder
  the order is ignored exactly when a sorted price falls short of its rung by
  more than the tolerance, or the lowest price is within it of the highest
  target (`LongOrderIsIgnoredIff`; `ShortOrderIsIgnoredIff`, and
  `SameResultIff` for any ladder).
* A buffered message is lost when an exception outside `DEFENSIVE_EXC`, such
  as flood control from the Telegram library, ends its flush
  (`FloodControlLosesMessage`). A send loses a message exactly when one of its
  requests was delivered and its last one ended with such an exception, and a
  run exactly when one of its sends does (`AnswerMeans`, `RunLosesIff`).
* A deferred migration is never applied once a later one is recorded, whatever
  happens to the tables (`DeferredForGood`, `RetriedIff`). `db migrate` on
  an empty file loses versions 4 and 5 in this way (`FreshRun`); they are lost
  exactly when the run did not find their tables (`PassedOverForGoodIff`).
* Version 11 indexes `signal_outcomes` without listing it as a prerequisite,
  and version 12 indexes its column `entry_tf`, which the repository adds in a
  step of its own after creating the table, and lists only the tables. On a
  database made by the registry and the repository, a run raises exactly when
  version 11 is still to come and the table is missing, or version 12 is, both
  tables are there and the column is missing (`RegistryRaisesIff`). For one
  that began as an empty file, under initialisations cut short anywhere, that
  is exactly when no initialisation ever completed
  (`RunRaisesUnlessInitialised`, `CutShort`).

## Model

| member | source | states |
|---|---|---|
| ImportCycles.SearchFrom | scripts/check_circular_imports.py:86-98 | a call of `dfs` terminates on every graph, gives the path and its set back as they were, and leaves them a duplicate-free path with equal elements; every list in `cycles` stays a real cycle |
| ImportCycles.ScanImports | scripts/check_circular_imports.py:90-96 | the loop over neighbours keeps the same, and leaves every neighbour visited |
| ImportCycles.ReportKeepsValid | scripts/check_circular_imports.py:93-96 | the slice of the path reported for an edge back into it is a closed list of imports repeating only its end |
| ImportCycles.FindCycles | scripts/check_circular_imports.py:80-103 | every reported list is a cycle of the graph: consecutive imports, first equals last, no other repetition |
| ImportCycles.EveryCycleIsClosed | scripts/check_circular_imports.py:80-103 | every directed cycle, simple or not, contains an edge that is the last edge of a reported list |
| ImportCycles.PrunedGraphIsAcyclic | scripts/check_circular_imports.py:80-103 | deleting the closing edges of the reported lists leaves an acyclic graph |
| ImportCycles.NothingReportedIffAcyclic | scripts/check_circular_imports.py:80-103 | the result is empty exactly when the graph is acyclic |
| ImportCycles.SearchFinishes | scripts/check_circular_imports.py:86-98 | finish order: an import of a finished module finished earlier or closes a reported list |
| ModuleNames.SortedNames | scripts/check_circular_imports.py:90-100 | `sorted` on a set of names: same elements, ascending |
| ModuleNames.SortedNamesIsUnique | scripts/check_circular_imports.py:90-100 | only one list has those two properties |
| CycleFinder.Finder.Dfs | scripts/check_circular_imports.py:86-98 | the nested function on its mutable variables computes `SearchFrom` |
| CycleFinder.Finder.Scan | scripts/check_circular_imports.py:90-96 | its loop computes `ScanImports` |
| CycleFinder.FindCyclesByDfs | scripts/check_circular_imports.py:80-103 | the whole search computes `FindCycles` |
| CycleFinder.RunCheck | scripts/check_circular_imports.py:117-139 | returns 0 exactly when every reported cycle lies in a whitelisted set, although repeated node sets are skipped |
| CycleFinder.PassingMeansMitigated | scripts/check_circular_imports.py:117-132 | when the check passes, every import cycle has an import between two modules of one whitelisted set |
| CycleFinder.NewCyclesFailIffSingletons | scripts/check_circular_imports.py:4-5 | the check catches every new cycle of every graph if and only if no whitelisted set has two modules |
| CycleFinder.PassesIffAcyclic | scripts/check_circular_imports.py:117-139 | on a graph none of whose cycles lies in a whitelisted set, the check passes exactly if there is no cycle |
| CycleFinder.MissedCycle | scripts/check_circular_imports.py:4-5 | for any whitelisted pair, a graph without self-imports that passes and has a new three-module cycle |
| CycleFinder.ShippedWhitelistMissesNewCycles | scripts/check_circular_imports.py:20-27 | the shipped whitelist lets some new cycle pass |
| ScaleWeights.ComputeScaleWeights | engine/contract.py:214-228 | the cleaning loop and normalisation compute `NormalizeScaleWeights` |
| ScaleWeights.WeightsAddUpToOne | engine/contract.py:214-228 | whatever comes in, three non-negative weights that sum to exactly 1 |
| ScaleWeights.DriftIsOneUnit | engine/contract.py:226-228 | the drift is -0.0001, 0 or 0.0001 and never makes the first weight negative |
| ScaleWeights.TwoTiesDoNotBothRoundUp | engine/contract.py:226-227 | why half-to-even is needed: two shares up to 1 never round to 1.0001 together |
| ScaleWeights.ZeroShareIff | engine/contract.py:214-228 | exactly which requested weights leave a target without a share; the first loses its own whenever it is zero, and only with at most 0.0001 of the total |
| ScaleWeights.SharesAreNearest | engine/contract.py:214-228 | the second and third share are nearest, in units of 0.0001, to their own requested weight, the first gets the rest; without three weights or any positive one they are 0.5, 0.3, 0.2 |
| Rounding.RoundHalfEven | engine/contract.py:226-227 | Python's `round`: never more than half a unit off, ties to the even neighbour |
| Targets.Sorted | engine/contract.py:275-280 | `sorted` on three prices: in order, same elements with multiplicity |
| Targets.ResolveTargets | engine/contract.py:261-273 | the loop keeps each positive price and replaces each missing or non-positive one by its own rung |
| Targets.ComputeTargets | engine/contract.py:246-328 | the in-place steps compute `NormalizeTargets` |
| Targets.RungsOrder | engine/contract.py:231-234 | rungs of a positive ladder lie beyond the entry, in order exactly when the ladder ascends |
| Targets.ShortIsAlwaysOrdered | engine/contract.py:279-315 | short targets come out ordered, below the entry and above the floor under every positive ladder, and the fallback is not used |
| Targets.LongIsOrderedIff | engine/contract.py:274-308 | long targets come out ordered exactly when the ladder or the moved inputs are |
| Targets.LongIsLeast | engine/contract.py:274-278 | for longs, the least ordered triple above both the sorted inputs and the ladder |
| Targets.ShortIsGreatest | engine/contract.py:279-292 | for shorts, the greatest descending triple below both the sorted inputs and the ladder, kept above the floor |
| TargetNumbers.BareLadder | engine/contract.py:246-328 | without requested prices, an ascending ladder gives a long exactly its rungs and a short those above the floor |
| TargetNumbers.RungDistances | engine/contract.py:231-234 | a rung lies as many units of the risk beyond the entry as the ladder says |
| TargetNumbers.StatusMeans | engine/contract.py:316-328 | the status says whether each price asked for is within a hundred-millionth of its target, and whether the targets are of one another, relative to the largest of them, the entry and 1 |
| TargetNumbers.FloorIsLeast | engine/contract.py:279-280 | the price floor is the least price at least a fiftieth of the entry and at least 0.00000001 |
| Targets.OrderOfInputsIsIrrelevant | engine/contract.py:274-315 | shuffling three prices does not change the prices that come out |
| TargetOrder.StatusDependsOnOrder | engine/contract.py:322-327 | the status does change: a concrete pair of calls |
| TargetOrder.SameResultIff | engine/contract.py:322-327 | under any ladder, every order of the prices gets the same result exactly when even in ascending order they miss it by more than the tolerance, or even in descending order they do not |
| TargetOrder.LongOrderIsIgnoredIff | engine/contract.py:246-328 | for longs under an ascending ladder, exactly when a sorted price falls short of its rung, or lowest price and highest target are within the tolerance |
| TargetOrder.ShortOrderIsIgnoredIff | engine/contract.py:246-328 | for shorts, exactly when the descending prices miss their rungs and the floor, or even the ascending ones do not |
| Targets.NormalizingTwice | engine/contract.py:246-328 | normalising twice is normalising once, and the second time says `valid` or `single_target` |
| TradePlans.ComputeTradePlan | engine/contract.py:331-428 | the builder, reassigning the stop in place, computes `BuildTradePlan`, whose numbers the rows from `PlanNumbers` pin to those of the request |
| PlanNumbers.PlanExistsIff | engine/contract.py:349-361 | exactly which requests get a plan, over their numbers |
| PlanNumbers.ZoneOfRequest | engine/contract.py:363-365 | the zone's upper edge is the least price as far above the anchor as the request's multiple of the range, one part in 2000, and the tolerance above the lower edge; the lower edge mirrors it above the tolerance; the anchor is strictly inside exactly above 0.00000001 |
| PlanNumbers.StopOfRequest | engine/contract.py:367-376 | a stop outside the zone is kept; one inside moves to the nearest price a fiftieth of the range and four tolerances outside |
| PlanNumbers.PlanRatios | engine/contract.py:391-426 | each reward times the risk is its target's distance from the middle of the zone; the width is in percent of that middle |
| PlanNumbers.LifetimeOfRequest | engine/contract.py:174-211 | the bars are those from 1 to 96 nearest to what is requested or listed, in duration where minutes are listed, else 8 from an hour on and 24 below |
| PlanNumbers.PlanParts | engine/contract.py:379-428 | targets, flags and weights are those of the two normalisations against the plan's own zone and stop |
| TradePlans.ZoneGeometry | engine/contract.py:357-379 | the zone is a proper positive range and its middle is above the smallest price floor |
| TradePlans.PlanGeometry | engine/contract.py:349-428 | every acceptable request gets a plan, with low below high and the stop strictly outside the zone on the right side |
| TradePlans.StopIsPositiveUnless | engine/contract.py:372-376 | the stop is non-positive exactly for a long stopped inside a zone no higher than the clearance |
| TradePlans.PlanExpiry | engine/contract.py:191-211 | expiry is creation plus `ttl_bars` bars, and `ttl_bars` is between 1 and 96 |
| SignalContract.ValidateSignalContract | engine/contract.py:431-578 | the appending validator computes `Issues`, in order; what that is, for any signal, the rows from `ContractRules` say |
| ContractRules.NoIssuesIff | engine/contract.py:431-578 | any signal gets no objection exactly when it conforms: side known, six positive prices, low below high, stop strictly beyond the zone, targets ordered beyond its middle, reward large enough for the risk, at least two positive weights within their sum, not expired |
| ContractRules.ReportedIff | engine/contract.py:431-578 | each of the 22 objections is made exactly when its own rule, a condition on the signal's fields, is broken |
| ContractRules.IssuesAreBrokenRules | engine/contract.py:431-578 | the objections are the broken rules in the order of the list, each once |
| SignalContract.CheckRequired | engine/contract.py:473-485 | the loop over required fields reports exactly the missing and non-positive ones, in order |
| SignalContract.CheckZone | engine/contract.py:486-538 | the checks on zone, stop, targets and reward, in order |
| SignalContract.PlanIssues | engine/contract.py:331-578 | the exact list of objections to any plan built on an ascending ladder from the minimum up |
| SignalContract.PlanPassesIff | engine/contract.py:331-578 | exactly which requests on such a ladder get a plan that passes, in terms of the requested stop, zone, weights and lifetime; default weights always do |
| SignalContract.RungAboveFloorIsEnough | engine/contract.py:279-292 | a short whose first rung is not below the price floor is never rejected for its reward |
| SignalContract.PlanTargets | engine/contract.py:379-391 | target prices of such a plan are ordered, positive, and worth the first rung unless the floor is in the way |
| SignalContract.PlanOrderIff | engine/contract.py:302-315 | for any positive ladder, exactly which plans have ordered targets |
| SignalContract.RejectedLong | engine/contract.py:367-376 | a long plan the validator rejects for its stop |
| SignalContract.RejectedShort | engine/contract.py:279-292 | a short plan the validator rejects for its reward |
| TelegramBroadcaster.Broadcaster.Send | engine/telegram.py:269-314 | `send_html` on the fields computes `SendHtml` |
| TelegramBroadcaster.Broadcaster.SendWithRetries | engine/telegram.py:420-464 | up to three attempts compute `SendImmediate` |
| TelegramBroadcaster.Broadcaster.FlushBuffer | engine/telegram.py:301-313 | the flush loop over the deque computes `Flush` |
| TelegramBroadcaster.Broadcaster.Edit | engine/telegram.py:316-363 | `edit_html` with its flood-control retries computes `EditHtml` |
| TelegramBroadcaster.Broadcaster.RecordSendFailure | engine/telegram.py:535-548 | computes `RecordFailure` |
| TelegramBroadcaster.Broadcaster.RecordSendSuccess | engine/telegram.py:527-533 | computes `RecordSuccess` |
| TelegramBroadcaster.Broadcaster.PruneRecentHashes | engine/telegram.py:412-418 | computes `PruneRecent` |
| TelegramSafety.EveryRunIsSafe | engine/telegram.py:269-363 | over every run: the circuit is not closed exactly when five failures were counted since the last success; open means the reset time is the last counted failure plus five minutes; at most 50 buffered; arrivals are departures followed by the buffer, in order; a message is evicted only after 50 newer arrivals; two successes of one text are 180 seconds apart; what left as flushed or duplicate was delivered |
| TelegramSafety.RunKeeps | engine/telegram.py:269-363 | the same as an invariant of every continuation, and no attempt is logged before the run began |
| TelegramProvenance.EveryDepartureWasDelivered | engine/telegram.py:269-363 | over every run, the d-th message to leave the buffer, if flushed or a duplicate, has a success of its text after its own arrival and before it left |
| TelegramProvenance.PruneLeavesRecent | engine/telegram.py:274-286 | because a call that reaches the pruning finds every success before the last arrival outdated |
| TelegramSafety.SendHtmlKeeps | engine/telegram.py:269-314 | one `send_html`, flush and retries included, keeps the invariant and makes no attempt before flood control ends |
| TelegramSafety.EditHtmlKeeps | engine/telegram.py:316-363 | one `edit_html` does too |
| TelegramSafety.FlushKeeps | engine/telegram.py:301-313 | a flush keeps the invariant: what it puts back goes to the front |
| TelegramSafety.SuppressedIff | engine/telegram.py:271-292 | a message is suppressed exactly when the circuit lets the call through and the same text succeeded less than 180 seconds ago |
| TelegramHistory.PruneKeeps | engine/telegram.py:412-418 | after pruning, a text is remembered exactly if it succeeded inside the window |
| TelegramHistory.QuietUnlessRecent | engine/telegram.py:286-304 | the remembered hashes cover every success inside the window |
| TelegramHistory.FailureKeeps | engine/telegram.py:535-548 | counting a failure opens the circuit at the fifth and not before, for five minutes from then |
| TelegramHistory.AppendKeeps | engine/telegram.py:253-279 | buffering keeps order of arrival and the limit of 50, evicting only the oldest of a full buffer |
| TelegramSafety.OpenCircuitIsRespected | engine/telegram.py:269-363 | once a call has ended with the circuit open until R, no later call makes a request before R |
| TelegramSafety.FloodControlIsRespected | engine/telegram.py:550-559 | nor before the end of flood control left by the last call |
| TelegramSafety.CircuitHeals | engine/telegram.py:274-300 | five minutes after any run a message that is no duplicate is tried again |
| TelegramSafety.ResultIsRecorded | engine/telegram.py:420-464 | after up to three attempts the last thing recorded is what is returned: this text's success now, a failure counted now, or flood control until retry-after from now |
| TelegramSafety.SendIgnoresBuffer | engine/telegram.py:420-464 | a send neither reads nor changes the buffer |
| TelegramDelivery.SendEnds | engine/telegram.py:420-464 | a message's attempts succeed exactly when one of its requests was delivered, which is then the last, and raise past the handler exactly when the last ended with an exception the code does not catch |
| TelegramDelivery.FlushRaisesIff | engine/telegram.py:301-313 | a flush raises exactly when it made a request and the last one ended with an exception the code does not catch |
| TelegramDelivery.FlushLosesIff | engine/telegram.py:301-313 | in exactly that case it loses a message, one, the last to leave the buffer |
| TelegramDelivery.FlushEmptiesUnless | engine/telegram.py:301-313 | a flush that does not raise leaves messages exactly when its last request ended with a failure the code catches |
| TelegramDelivery.FlushTakesFromFront | engine/telegram.py:301-313 | it takes messages from the front only, one departure for each |
| TelegramDelivery.SentEmptiesIff | engine/telegram.py:269-314 | when `send_html` answers `sent`, the buffer is empty exactly if its last request was delivered |
| TelegramDelivery.AnswerMeans | engine/telegram.py:269-314 | which answer `send_html` gives, whether this text was sent, and whether a buffered one was lost, as conditions on how the call's requests ended: `sent` means delivered, `failed`, buffered and suppressed mean nothing was sent, raising may follow a delivery |
| TelegramRequests.SendRequests | engine/telegram.py:420-464 | the plain text follows a markup error and nothing else; every further attempt follows a failure that, with tenacity, names no time to retry; all three are used unless one succeeds or names one |
| TelegramRequests.OneSendRequests | engine/telegram.py:428-464 | an attempt makes a second request exactly after a markup error with plain text to send |
| TelegramRequests.EditAnswerMeans | engine/telegram.py:316-363 | what `edit_html` answers and changes, by how its last request ended: edited exactly if delivered or not modified, and then the circuit is closed and the count 0; a failure is counted exactly if it was caught and names no time to retry |
| TelegramRequests.EditPersists | engine/telegram.py:319-355 | with tenacity, an edit is given up exactly when flood control answered all five rounds |
| TelegramRequests.EditWaits | engine/telegram.py:338-350 | it waits out every such answer but the last, and a second more |
| TelegramRequests.EditRequests | engine/telegram.py:466-501 | up to three attempts to edit, the last request deciding their outcome |
| TelegramDelivery.RunLosesIff | engine/telegram.py:269-363 | a run loses a message exactly when one of its sends had a request delivered and its last request ended with an exception the code does not catch |
| TelegramDelivery.NothingIsLost | engine/telegram.py:301-314 | so if every failure is one the code catches, whatever left the buffer was sent, a duplicate or evicted |
| TelegramLoss.FloodControlLosesMessage | engine/telegram.py:301-313 | a run from a fresh sender that loses a buffered message |
| TelegramLoss.FourthIsDeliveredAllTheSame | engine/telegram.py:293-314 | its last call raises although its own message was delivered |
| RateLimit.DashboardAccessAuditor.CheckRateLimit | bot/dashboard/access_audit.py:44-54 | the evicting deque answers as the full scan of the history does, and touches no other client's deque |
| RateLimit.WindowDecides | bot/dashboard/access_audit.py:49-52 | after eviction the length of the deque is the scan's count |
| RateLimit.AnyMinuteIsBounded | bot/dashboard/access_audit.py:44-54 | no closed 60-second window, wherever it starts, has more than `limit` admissions of a client |
| RateLimit.RefusedIffWindowFull | bot/dashboard/access_audit.py:51-52 | refused if and only if exactly `limit` requests were admitted in the last 60 seconds |
| RateLimit.ClientsAreIndependent | bot/dashboard/access_audit.py:48 | a client's answers are those it would get alone |
| MigrationRegistry.Connection.Migrate | bot/migrations.py:328-371 | the loop with begin, commit and rollback computes `MigrateDb`, leaving nothing uncommitted |
| MigrationRegistry.Connection.ExecuteScript | bot/migrations.py:358-359 | executes the statements in order and stops at the first that fails, on what those before it left |
| Migrations.FetchSchemaVersion | bot/migrations.py:299-314 | the highest recorded version, 0 if none |
| Migrations.RaisesIffItStops | bot/migrations.py:345-371 | a run raises exactly when a migration it gets to fails, and leaves what was there, with that migration only if the failure came after its commit |
| Migrations.CommitsAreCounted | bot/migrations.py:344-371 | the count is the number of versions the run recorded |
| Migrations.CrashAndResume | bot/migrations.py:328-371 | a run cut short anywhere and run again: same schema, same recorded versions, same end as one run, no migration committed twice |
| Migrations.AnyCrashesThenResume | bot/migrations.py:328-371 | the same after any number of failing runs |
| Migrations.RunningAgainAppliesNothing | bot/migrations.py:345-371 | a further run applies 0 |
| Migrations.RecordedMeansInEffect | bot/migrations.py:356-367 | after any run, the schema is the old one with exactly the newly recorded migrations executed in order |
| Migrations.DeferredForGood | bot/migrations.py:346-355 | a migration passed over while a later one was recorded is never applied by any later run, even if its tables appear |
| Migrations.RetriedIff | bot/migrations.py:338-355 | a run applies a migration it finds unrecorded exactly when it gets there, nothing later is recorded, its tables are there by then and its statements execute |
| MigrationRegistry.RegistryAscends | bot/migrations.py:19-248 | the shipped versions ascend strictly |
| MigrationRegistry.RegistryRaisesWithoutOutcomes | bot/migrations.py:231-265 | below version 11 and without `signal_outcomes`, every run of the shipped registry raises, on any database and under any faults |
| RegistryRuns.RegistryRaisesIff | bot/migrations.py:19-287 | on any database made by the registry and the repository, a run without faults raises exactly when version 11 is to come and `signal_outcomes` is missing, or version 12 is, both tables are there and `entry_tf` is missing |
| RegistryRuns.RunRecords | bot/migrations.py:345-371 | what such a run records: the later migrations whose tables are there, up to the one that fails |
| RegistryRuns.HistoryStands | bot/persistence/repository/memory.py:108-133 | initialisations by the repository cut short anywhere and runs failing anywhere keep the database such a one; the column is there exactly once an initialisation completed |
| RegistryRuns.RunRaisesUnlessInitialised | bot/persistence/repository/memory.py:108-133 | after any such history from an empty file, a run raises exactly when no initialisation ever completed |
| RegistryRuns.CutShort | bot/persistence/repository/memory.py:122-131 | an initialisation killed before the column step, then a run: both tables are there, version 11 is recorded, version 12 raises |
| RegistryRuns.FreshRun | bot/cli.py:827-830 | migrating an empty file records versions 1, 3 and 6 to 10, raises at 11, and loses 4 and 5 for good |
| RegistryRuns.PassedOverForGoodIff | bot/migrations.py:346-355 | version 4 or 5 is never applied after a run, whatever follows, exactly when that run did not find its tables |
| MigrationRegistry.UnguardedTableRaises | bot/migrations.py:261-287 | the reason: an index on a table nobody creates, with no prerequisite listed |
| Regression.ScoreOutcomeRSquared | bot/dashboard/outcomes_insights.py:55-86 | nothing for fewer than five pairs or zero variance, otherwise R squared of the fitted line to four places |
| Regression.CollectPairs | bot/dashboard/outcomes_insights.py:57-69 | the collecting loop keeps, in order, the rows with a score and a decided result |
| Regression.PairMeans | bot/dashboard/outcomes_insights.py:58-68 | which rows count, with their own score before their features', and for what |
| Regression.PairsInOrder | bot/dashboard/outcomes_insights.py:57-69 | rows give their pairs in order |
| Regression.LeastSquares | bot/dashboard/outcomes_insights.py:74-82 | the computed line, and no other, minimises the squared error over all lines |
| Regression.ResidualsAreOrthogonal | bot/dashboard/outcomes_insights.py:80-82 | its residuals sum to zero and are orthogonal to the scores |
| Regression.RSquaredIsCorrelation | bot/dashboard/outcomes_insights.py:83-86 | R squared is cov^2 / (var_x * ss_tot), in [0, 1] before and after rounding; Cauchy-Schwarz |
| Regression.VarianceIsZeroIffConstant | bot/dashboard/outcomes_insights.py:76-85 | the two guards turn away exactly the constant series |
| Drawdown.GrossProfitAndLoss | bot/dashboard/analytics.py:102-106 | gross profit minus gross loss is the final curve and their sum all movement; the profit factor is their ratio, none exactly without loss, above 1 exactly for a rising curve |
| Drawdown.MaxDrawdown | bot/dashboard/analytics.py:108-114 | the one-pass figure is the least change between any two points in order, attained, between minus gross loss and 0 |
| Drawdown.DeepestIsMinimalFall | bot/dashboard/analytics.py:108-114 | the same about the running-peak recurrence |
| Rsi.ComputeWilderRsi | scripts/beat_independent_check.py:27-43 | the two loops compute `WilderRsi`, which the next rows pin |
| WilderAverage.SmoothedIsWeighted | scripts/beat_independent_check.py:33-37 | closed form: the first p entries weigh (1 - 1/p)^(n-p) / p each, a later entry i (1 - 1/p)^(n-1-i) / p |
| WilderAverage.WeightsAddUp | scripts/beat_independent_check.py:33-37 | those weights add up to 1 |
| WilderAverage.RsiIsWeightedShare | scripts/beat_independent_check.py:27-43 | the index is the share of the so weighted gains in all movement, in percent; none for too short a series |
| WilderAverage.MovesOf | scripts/beat_independent_check.py:30-33 | gain less loss is the change of the close, neither negative and never both positive |
| Rsi.RsiRange | scripts/beat_independent_check.py:37-43 | in [0, 100]; 100 exactly when no close falls, except that period 1 only looks at the last close |
| Rsi.RsiIgnoresUnits | scripts/beat_independent_check.py:27-43 | unchanged by positive affine rescaling of prices |
| Rsi.RsiMirrors | scripts/beat_independent_check.py:27-43 | mirrored prices give 100 minus the index, unless all closes are equal, when both are 100; for period 1 the last two decide |
| Rsi.SmoothedIsZeroIff | scripts/beat_independent_check.py:35-39 | smoothing never forgets a positive entry |
| Klines.FetchPages | scripts/historical_strategy_audit.py:95-123 | the paging loop terminates; rows ascend, lie in the range, have no gap, and are all of start to before end if none is malformed |
| Klines.FetchKlinesRange | scripts/historical_strategy_audit.py:87-132 | so do the rows after the dictionary and the sort |
| Klines.CollectPage | scripts/historical_strategy_audit.py:112-120 | one page moves the cursor forward without skipping or repeating a bar |
| Klines.PageIsPrefix | scripts/historical_strategy_audit.py:99-109 | a page leaves out an eligible bar only if it is full, and then only later ones |
| Outcomes.OutcomeForSignal | scripts/historical_strategy_audit.py:366-402 | the scan's answer is the first-event rule's: first stop or target touch from the first zone touch on, stop winning ties |
| Outcomes.FirstEventRule | scripts/historical_strategy_audit.py:382-402 | the same, about the scan as a function |
| Outcomes.OutcomeInPrices | scripts/historical_strategy_audit.py:366-402 | the same rule in prices: which level the first deciding bar reached, the stop first |
| Outcomes.HorizonIsPrefix | scripts/historical_strategy_audit.py:374 | the bars looked at are as many of the first as the horizon says, at least one |
| Outcomes.LongerHorizonKeepsDecision | scripts/historical_strategy_audit.py:374-402 | a decided outcome does not change when the horizon grows |
| Outcomes.LooserKeepsWins | scripts/historical_strategy_audit.py:392-401 | a farther stop or nearer target never turns a win into anything else |
| LineBuffer.StderrToLog.Write | bot/cli.py:407-417 | logs the complete lines worth logging and holds back the rest |
| LineBuffer.StderrToLog.Flush | bot/cli.py:419-423 | logs and clears what is held back unless it is blank |
| LineBuffer.ChunkingIsIrrelevant | bot/cli.py:407-417 | lines logged and text held back depend only on the concatenated text |
| LineBuffer.SplitRoundTrip | bot/cli.py:413-417 | the lines and the rest make up the text, and neither contains a newline |
| LineBuffer.KeptConcat | bot/cli.py:414-416 | with `KeptOne`: exactly the lines worth it are logged, in order |

## Left out

- Floating point: reals are exact, so overflow, NaN, infinities and rounding of intermediate results are not modelled.
- Python's recursion limit in the cycle search: the model's `dfs` may recurse as deep as the graph.
- Reading the import graph out of source files, including the check that the scanned directories exist, and the printed report.
- Parsing of directions, timeframes, numbers and dates from strings and attributes: requests and signals are typed records, timeframes are minutes.
- The TTL tables: a request carries what they say about its setup, and the branching over them is modelled.
- The values attached to validator issues; field and reason are modelled.
- The text of messages, HTML-to-plain conversion and logging: whether a plain version is worth trying is part of the network's answer.
- `send_photo` and `preflight_check`: they do not consult the circuit or the duplicate window.
- Cancellation of a call in progress, and exceptions outside Python's `Exception`.
- Concurrent callers of the sender and of the limiter: both hold a lock for a whole call, and the limiter does not wait inside it.
- The access log file of the dashboard.
- Row contents of the database other than the relabelling marks, columns no migration statement names, and other processes writing during a run.
- The repository's other tables, columns and indexes: its initialisation makes the two tables the registry relies on and adds the one column they are created without. Databases of older releases of the repository, whose tables lack other columns the registry names.
- The creation of the version table at the start of a run: the model's database always has one.
- The trade-outcome filter and the other report fields of the analytics, and `_percentile`.
- Turning bars into frames and dropping an unfinished last bar; retries of a page download; answers that are not a list.
- `_anchor_indices`, `prune_run_dirs` and the PID lock.
- Rsi.WilderRsi: periods below 1 are excluded; the original divides by zero for 0, and its callers use 14.
