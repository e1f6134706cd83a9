# Mortise, verified

Mortise is a self-hosted platform that runs apps on Kubernetes. Most of it is plumbing, but a
handful of its parts are algorithms and protocols whose promises are easy to state and hard to see
from the code. This project models those parts in Dafny and proves the promises, for all inputs,
all interleavings and all runs.

| module | what it models |
|---|---|
| `ConflictRetry` | optimistic concurrency on one versioned API object: any number of load-modify-write loops, with create races, conflicts and replies lost on the way |
| `ActivityLog`, `ActivityStore` | the per-project activity log: numbering with a backfill of legacy entries, pruning by age, count and bytes, and its runs under `ConflictRetry` |
| `CursorPaging`, `Decimal`, `ActivityPaging`, `LogPaging` | newest-first paging by cursor while the data moves, for the activity log and for the observer's log lines |
| `EnvOwnership`, `EnvHandlers`, `EnvSecret` | the rules of who owns an environment variable: replacing (PUT) and patching (PATCH) as an algebra, the list-based handlers that implement it, the Secret they read and write, and its runs under `ConflictRetry` |
| `ProxyManager` | the single-flight proxy manager: a lock, a pending table, broadcast channels and disconnects racing with them |
| `ServiceGraph` | ordering the services of a compose file by dependency, with cycle detection, and filtering them first |
| `TemplateText`, `TemplateVars` | generating declared variables after the ones that sign them, and the substitution loop |
| `LoginLimiter`, `LoginRounding` | token bucket, lockout and bounded table of the login throttle, in exact arithmetic; and its bucket in rounded arithmetic |
| `TrafficPipeline`, `Percentile`, `LiveCaches` | the observer: counting log lines, flushing and retrying, Prometheus counters, latency percentiles, and the trimmed in-memory caches that must answer like the database |
| `EnvDiff` | the three-layer report of the command-line client and the list of changes a file would make |
| `Options`, `Ordering` | shared vocabulary: optional values, strict orders, sorting |

Code that changes fields or walks collections in loops is modelled by classes and methods with the
same loops; each is proved against a function or predicate on values, and the theorems are lemmas
about those. Protocols are state machines whose run is a fold of a step function over an arbitrary
sequence of steps; a step that is not enabled changes nothing, so "for all step sequences" means
"for all interleavings". The clock, randomness, the JWT library, digests and Secret reads are
parameters. Wherever Go walks a map, the model picks an arbitrary next element.

## Where the code and its comments disagree

- `internal/activity/configmap_store.go:180-187` says the backfill makes duplicate numbers
  impossible. It does not: `[0, 1]` becomes `[1, 1]`. For a log whose stored numbers rise,
  `ActivityLog.BackfillDistinctIffRoom` gives the exact condition: the numbers must leave room for the
  legacy entries before them. An all-legacy log and every log the code itself has written satisfy it.
  The same condition is exact, for every log, for recency order and uniqueness together
  (`ActivityLog.BackfillIncreasingIffRoom`).
- `cmd/observer/traffic_collector.go:327-328` says the shutdown flush drains every bucket. With a
  bucket size below one second it drains the open bucket only when the clock is in the last of five
  seconds; `TrafficPipeline.ShutdownEmptiesIff` is the exact condition over all runs, and
  `TrafficPipeline.ShutdownCanLeaveALine` the run that keeps a line otherwise.
- `internal/api/loginlimit.go:81-82` says the returned delay is what to advertise. It is cut down to
  whole nanoseconds. In exact arithmetic, for a rate that does not divide a minute into whole
  nanoseconds, 7 say, it is too short after a burst at one moment
  (`LoginLimiter.RawDelayCanFallShort`), and for every other rate it is enough
  (`LoginLimiter.RawDelaySufficesIff`). In the code's double precision it can be too short for those
  rates too, the default of 5 among them: after a burst at one moment an attempt two seconds later is
  refused with a delay of exactly ten seconds, and an attempt exactly ten seconds after that finds
  0.9999999999999999 tokens and is refused again (`LoginRounding.RawDelayFallsShort`; products and
  sums are rounded one by one there, not fused). The Retry-After header (section 10.2.3 of RFC 9110)
  rounds up to the next second and is, in exact arithmetic, always enough.
- `internal/api/stacks.go:316-320` says user-provided variables always take precedence. A value that
  contains a placeholder can lose to a generated one, depending on the order in which the map is
  walked (`TemplateText.NestedValuesDependOnOrder`), and so can one that merely ends in a dollar sign
  and stands before a brace (`TemplateText.TrailingDollarLosesValue`). Take templates made of
  placeholders and of text that opens none where it stands, with names without `$` and `}`. Given
  values are kept and appear as given, in every such template and under every order, exactly when
  none contains `${`, none ends in `$`, none is empty and none starts with `{`. For those templates
  whose text never ends in `$` the last two may be dropped (`TemplateText.GivenValuesAreMeantIff`
  for both).

## Model

| member | source | states |
|---|---|---|
| `ConflictRetry.EveryInterleavingIsSequential` | internal/envstore/retry.go:14-33 | under every interleaving the object is the sequential fold of the committed requests, each decided on exactly what its predecessors left; a request that reported success wrote once, one whose reply was lost at most once, any other never |
| `ConflictRetry.GivingUpNeedsFiveOthers` | internal/activity/configmap_store.go:93-122 | a request exhausts its attempts only after five foreign commits, so with at most five in flight none gives up |
| `ConflictRetry.ApiObject.UpdateWithConflictRetry` | internal/envstore/retry.go:21-32 | the loop against arbitrary rival writes between its reads and writes: it ends at the first attempt left alone or not wanting to write, having stored what it decided on exactly the object it replaced |
| `ConflictRetry.ApiObject.Put` | internal/envstore/retry.go:31 | a conditional write is accepted exactly when the version has not moved |
| `ActivityLog.BackfillIncreasingIffRoom` | internal/activity/configmap_store.go:180-198 | backfilled numbers are strictly increasing and positive exactly when the numbers present leave room for the legacy entries before them |
| `ActivityLog.BackfillDistinctIffRoom` | internal/activity/configmap_store.go:184-187 | for a log whose stored numbers rise, no number is given twice exactly when they leave that room |
| `ActivityLog.RoomForLegacyTail` | internal/activity/configmap_store.go:182-187 | numbered entries followed by legacy ones, the rollback case, always leave room |
| `ActivityLog.BackfillCanDuplicate` | internal/activity/configmap_store.go:184-187 | a concrete log in which the backfill mints a duplicate number |
| `ActivityLog.BackfillIdempotent` | internal/activity/configmap_store.go:159-162 | backfilling a backfilled log changes nothing |
| `ActivityLog.BackfillKeepsNumbers` | internal/activity/configmap_store.go:188-198 | no number already assigned is changed, and a legacy entry keeps its timestamp and detail |
| `ActivityLog.BackfillOfLegacy` | internal/activity/configmap_store.go:180-182 | an all-legacy log is numbered 1 to n in order |
| `ActivityLog.TrimSizeIsNearlyBest` | internal/activity/configmap_store.go:221-243 | trimming keeps a non-empty suffix with the newest entry, within the count cap and within the byte budget or a single entry, drops nothing without need, and falls short of the longest fitting suffix by less than its last drop from n entries, max(1, n/8) |
| `ActivityLog.BackfillSeq` | internal/activity/configmap_store.go:188-198 | the in-place loop with a running maximum computes the backfill |
| `ActivityLog.FindNextSeq` | internal/activity/configmap_store.go:201-209 | the loop finds one past the greatest number |
| `ActivityLog.PruneOld` | internal/activity/configmap_store.go:212-219 | the loop drops exactly the leading entries older than the horizon |
| `ActivityLog.PruneBig` | internal/activity/configmap_store.go:224-243 | the trimming loops, which terminate, compute the trimmed suffix |
| `ActivityLog.ComputeAppend` | internal/activity/configmap_store.go:133-168 | one load-modify-write cycle: the first event as it comes, later ones numbered behind the backfilled log and pruned |
| `ActivityLog.List` | internal/activity/configmap_store.go:248-278 | the newest entries first, up to the effective limit |
| `ActivityStore.AppendsAreNeitherLostNorDoubled` | internal/activity/configmap_store.go:90-178 | for every interleaving of any number of appenders the log is the fold of the committed appends, an append that returned success is in it once, and up to five concurrent appenders never give up |
| `ActivityStore.HistoryIsTheCommits` | internal/activity/configmap_store.go:155-178 | everything ever readable is the initial log followed by the events of the committed appends in commit order, each once |
| `ActivityStore.NumbersAreStable` | internal/activity/configmap_store.go:280-285 | in every reachable state the numbers are positive and strictly increasing, and a number seen once never names another event later, across appends, ageing and trimming |
| `ActivityStore.AppendExtendsView` | internal/activity/configmap_store.go:159-168 | an append leaves a suffix of the old view plus the new event with a greater number |
| `ActivityStore.PrunedAppend` | internal/activity/configmap_store.go:164-168 | after pruning by age, count and bytes the log is a non-empty suffix of the old view plus the new event, which is its last entry |
| `CursorPaging.PagesDescend` | internal/activity/configmap_store.go:280-285 | pages obtained by following cursors show strictly descending keys, whatever the view is at each read |
| `CursorPaging.EveryKeyHasItsTurn` | internal/activity/configmap_store.go:320-336 | once the last page promises no more, every key has one page whose turn it is, and it is shown exactly when it was in the view that page was read from |
| `CursorPaging.FollowingEnds` | internal/activity/configmap_store.go:320-336 | if nothing is shown that was not there at the first read, following takes at most one page more than there were keys then |
| `Decimal.ParsePrint` | internal/activity/configmap_store.go:291-298 | parsing a printed 64-bit number gives the number back |
| `ActivityPaging.ListPage` | internal/activity/configmap_store.go:286-337 | the read path with its limit defaulting, cursor check, in-memory backfill and page loop computes the page |
| `ActivityPaging.ListingIsPage` | internal/activity/configmap_store.go:320-336 | with increasing numbers the loop's page is the greatest entries below the cursor, newest first, and a next cursor is handed on exactly when older ones remain |
| `ActivityPaging.PagingIsSound` | internal/activity/configmap_store.go:280-337 | with appends, ageing and trims between reads, following cursors ends, repeats nothing, and shows nothing appended after the first read |
| `ActivityPaging.PagingIsComplete` | internal/activity/configmap_store.go:280-337 | every event present at the first read is shown, unless it had been trimmed by the read whose turn it was |
| `LogPaging.SplitPrintCursor` | cmd/observer/store.go:280-292 | a printed log cursor reads back as its timestamp and row id, for every timestamp text, even one containing the separator |
| `LogPaging.QueryLogs` | cmd/observer/store.go:294-350 | the fetched rows become lines with their cursors, one row more than the limit deciding whether more remain |
| `LogPaging.LineOfKey` | cmd/observer/store.go:333-340 | each line shown is the matching row of its key, with its own content and a cursor for that key |
| `LogPaging.QueryIsPage` | cmd/observer/store.go:305-347 | one query is a page of the matching rows: the greatest keys before the cursor, and hasMore exactly when rows remain |
| `LogPaging.EveryRowOnce` | cmd/observer/store.go:294-350 | over a changing table, following cursors shows rows in strictly descending (ts, rowid) order and misses no row that stays |
| `LogPaging.StaticTableEnds` | cmd/observer/store.go:345-349 | over an unchanging table, following cursors takes at most one page more than there are matching rows |
| `LogPaging.StaticTableIsEnumerated` | cmd/observer/store.go:294-350 | over an unchanging table, the pages up to the one that promises no more enumerate every matching row exactly once, with any positive limits and however many rows share a timestamp |
| `EnvOwnership.ProtectedNamesAreFixed` | internal/api/env.go:243-284 | no request changes the value or source of a variable that the controller or the spec owns |
| `EnvOwnership.PutIsPatch` | internal/api/env.go:219-286 | replacing by a duplicate-free list is refused exactly when, and gives exactly what, patching it in and unsetting the omitted user-owned names does |
| `EnvOwnership.PutDomain` | internal/api/env.go:215-236 | after an accepted replacement the names are the old ones minus the reported removals plus the reported additions |
| `EnvOwnership.LastPutWins` | internal/api/env.go:159-163 | of two accepted replacements in a row only the second shows |
| `EnvOwnership.PatchIdempotent` | internal/api/env.go:380-388 | a patch accepted once is accepted again and changes nothing more |
| `EnvOwnership.PatchIsLocal` | internal/api/env.go:373-425 | names a patch does not mention keep their entries |
| `EnvOwnership.DisjointPatchesCommute` | internal/api/env.go:355-425 | patches on disjoint names commute, in result and in refusal |
| `EnvOwnership.ReadBuild` | internal/envstore/envstore.go:487-566 | reading back a Secret built from variables gives their values and sources |
| `EnvOwnership.CommitMeaning` | internal/envstore/envstore.go:388-429 | a written Secret holds exactly what the request means for what the Secret held, and such a request was not refused |
| `EnvOwnership.KeepMeaning` | internal/envstore/envstore.go:424-426 | a skipped write would have changed no value and no source |
| `EnvOwnership.OwnershipHoldsInEveryRun` | internal/api/env.go:219-286 | for any interleaving of replacing and patching writers the Secret is the fold of the committed requests, refused ones contributed nothing, and owned variables are exactly what they were |
| `EnvHandlers.DeclarativeEnvSources` | internal/api/env.go:63-82 | the spec walk yields exactly the names declared by reference in the first environment of that name |
| `EnvHandlers.DeclaredByReference` | internal/api/env.go:65-79 | what the walk records: a name is declared exactly when listed with a reference, under the label of the last such listing, a binding winning over a secret reference in it |
| `EnvHandlers.LastReferenceShows` | internal/api/env.go:128-142 | the two maps a response is enriched from hold, for the names listed with a binding or a secret reference, what the last such listing says |
| `EnvHandlers.GetEnv` | internal/api/env.go:126-157 | the response lists every variable in order, enriched from the spec of the first environment of that name |
| `EnvHandlers.RedactionHidesValues` | internal/api/env.go:556-564 | a redacted response is the same whatever the values are |
| `EnvHandlers.PutEnv` | internal/api/env.go:219-286 | the replace callback refuses and computes as the rules say, gives no name two sources even when names repeat, and reports exactly the names added and the user-owned names removed |
| `EnvHandlers.GetThenPut` | internal/api/env.go:243-266 | sending back a plaintext response is accepted and keeps every name, value and source, a blank source becoming "user" |
| `EnvHandlers.PatchEnv` | internal/api/env.go:357-426 | the patch callback refuses and computes as the rules say under every order of its maps |
| `EnvSecret.SecretToEnvs` | internal/envstore/envstore.go:544-566 | reading lists every variable of the Secret once, by name, with its value and source, whatever order its data is walked in |
| `EnvSecret.BuildSecret` | internal/envstore/envstore.go:487-532 | a list that gives no name two sources is written as the Secret of its contents, the last value of a repeated name counting |
| `EnvSecret.SecretDataEqual` | internal/envstore/envstore.go:605-619 | comparing sizes and then each desired pair decides equality |
| `EnvSecret.AttemptPut` | internal/envstore/envstore.go:388-430 | one attempt of a PUT on the Secret as read, through the list and back, is the decision the runs fold; the reported names are exactly those that come and go |
| `EnvSecret.AttemptPatch` | internal/envstore/envstore.go:388-430 | one attempt of a PATCH is the decision the runs fold |
| `ProxyManager.AppProxyManager.Claim` | internal/api/proxy.go:179-198 | the section that finds, waits or registers as the creator |
| `ProxyManager.AppProxyManager.Publish` | internal/api/proxy.go:200-206 | the section that publishes or gives up, and wakes the waiters in either case |
| `ProxyManager.AppProxyManager.Disconnect` | internal/api/proxy.go:320-326 | the section that closes and forgets a published proxy |
| `ProxyManager.SingleFlight` | internal/api/proxy.go:179-231 | in every interleaving a key is never both pending and published, has at most one creator and one open listener, no listener is orphaned, every waiter's channel is closed or belongs to a live creator, and no creator closes a channel that is already closed |
| `ProxyManager.ReturnsWhatIsPublished` | internal/api/proxy.go:181-185 | a caller that succeeds returns an entry that is published, with its listener open, at the step of its return |
| `ProxyManager.StepUsesWork` | internal/api/proxy.go:186-206 | every step that changes anything lowers a bound on the work left, also when a waiter wakes and starts over |
| `ProxyManager.SomeoneCanMove` | internal/api/proxy.go:186-206 | while a caller is unfinished some caller can move: no wake-up is lost |
| `ProxyManager.MovesAreBounded` | internal/api/proxy.go:179-231 | n callers make at most n(4n+1)+4n moves between them in any schedule |
| `ProxyManager.EveryoneCanFinish` | internal/api/proxy.go:179-231 | from every reachable state some continuation finishes all callers |
| `ServiceGraph.TopoSort` | internal/api/compose.go:279-319 | the sort succeeds exactly when every dependency is a known service and nothing depends on itself through others; the output is then a permutation with dependencies first; an error names a service on a real loop or a really missing dependency |
| `ServiceGraph.TopoSorter.Visit` | internal/api/compose.go:284-306 | the recursive visit emits everything a service depends on and then it, or finds a reason why no order exists |
| `ServiceGraph.OrderImpliesSortable` | internal/api/compose.go:278-319 | an order with dependencies first exists only for a closed acyclic graph |
| `ServiceGraph.ParseDependsOn` | internal/api/compose.go:203-225 | each form of depends_on is read as exactly the names it lists |
| `ServiceGraph.FilteredNames` | internal/api/stacks.go:225-254 | filtering any form of depends_on is filtering its names |
| `ServiceGraph.FilterKeepsSortable` | internal/api/stacks.go:105-120 | dropping services, together with references to them, leaves a sortable file sortable, with exactly the kept services |
| `ServiceGraph.PlanStack` | internal/api/stacks.go:105-133 | filter and order together: every selected existing service of a sortable file is planned, dependencies first, and an empty selection result is reported as such |
| `TemplateVars.TopoSortVars` | internal/api/vargen.go:86-119 | under every order of the map the sort fails exactly when a chain of signers loops, and otherwise puts every variable after the one signing it |
| `TemplateVars.VarSorter.Visit` | internal/api/vargen.go:92-111 | the recursive visit with its two sets, or a variable on a real loop |
| `TemplateVars.Substituter.GenerateVar` | internal/api/vargen.go:121-152 | a generated value is hex of the declared length or the claims signed with the signer's value, and each error has exactly the cause it names |
| `TemplateVars.Substituter.ResolveVarSpecs` | internal/api/vargen.go:60-83 | provided variables are never overwritten; it fails as circular exactly when signers loop; success means every declared variable was made as declared; and if the declarations are satisfiable only entropy or the JWT library can fail |
| `TemplateText.ReplacingLowersOpens` | internal/api/stacks.go:341-358 | replacing a placeholder by a hex string strictly lowers the number of openings, overlapping and nested ones included |
| `TemplateText.AutoFillFinishes` | internal/api/stacks.go:340-359 | the loop ends with no closed placeholder left, and fails only for lack of entropy, which sixteen bytes per opening rule out |
| `TemplateVars.FillRest` | internal/api/stacks.go:340-359 | the loop itself, with that termination argument |
| `TemplateText.ReplaceEachIsFill` | internal/api/stacks.go:336-339 | replacing names one by one, in any order, fills all holes of a template at once |
| `TemplateText.SubstitutionMeaning` | internal/api/stacks.go:316-360 | substituting a template made of text and holes gives the template with every hole filled from the final variables, each fresh value used everywhere its name occurs, and given values kept, whatever the order |
| `TemplateText.GivenValuesAreMeantIff` | internal/api/stacks.go:316-320 | given values take precedence and appear as given, in every template of text and holes and under every map order, exactly when none contains an opening, ends in a dollar sign, is empty or starts with a brace; where text never ends in a dollar sign, exactly when none contains an opening or ends in a dollar sign |
| `TemplateText.UnsafeValueIsNotMeant` | internal/api/stacks.go:336-358 | any other value spoils a template of the same kind under whatever order |
| `TemplateText.NestedValuesDependOnOrder` | internal/api/stacks.go:336-358 | a value that contains a placeholder: one order uses the value given for it, the other ends with that value overwritten by a fresh one |
| `TemplateText.TrailingDollarLosesValue` | internal/api/stacks.go:336-358 | a value that merely ends in a dollar sign is overwritten under every order when a brace with its name follows |
| `TemplateVars.SubstituteVars` | internal/api/stacks.go:321-360 | the whole function is resolving, then replacing the known names in some order, then filling the rest; no closed placeholder remains |
| `LoginLimiter.LoginLimiter.Allow` | internal/api/loginlimit.go:83-115 | the new table and the answer of an attempt |
| `LoginLimiter.LoginLimiter.RecordFailure` | internal/api/loginlimit.go:119-145 | the new table after a failure, under the same cap discipline |
| `LoginLimiter.LoginLimiter.RecordSuccess` | internal/api/loginlimit.go:149-153 | a success forgets the key |
| `LoginLimiter.LoginLimiter.Prune` | internal/api/loginlimit.go:156-162 | the loop removes exactly the idle entries that are not locked out, in any order |
| `LoginLimiter.TableIsBounded` | internal/api/loginlimit.go:22-26 | over every run the table stays within its cap and every entry stays sound |
| `LoginLimiter.AttemptsAreBounded` | internal/api/loginlimit.go:83-115 | in any window, whatever other keys do, a throttled key is allowed at most burst plus rate times minutes attempts: for every configuration while the key stays in the table, and also across pruning when that is harmless |
| `LoginLimiter.PruningIsHarmlessIff` | internal/api/loginlimit.go:155-162 | dropping an idle entry gives the same tokens as keeping it, for every entry, exactly when the rate fills a bucket within the eviction window |
| `LoginLimiter.WaitingIsRewarded` | internal/api/loginlimit.go:81-115 | in exact arithmetic, a refused client that waits the advertised seconds is allowed, out of tokens or locked out, whatever other keys did meanwhile |
| `LoginLimiter.HeaderDelayIsEnough` | internal/api/auth.go:235-240 | in exact arithmetic, the header value covers the exact wait at every later time |
| `LoginLimiter.RawDelaySufficesIff` | internal/api/loginlimit.go:105-114 | in exact arithmetic, over all runs from an empty table, the returned delay is enough exactly for the rates that divide a minute into whole nanoseconds |
| `LoginLimiter.RawDelayCanFallShort` | internal/api/loginlimit.go:113-114 | in exact arithmetic, for every other rate, the run on which it is not: a burst at one moment, one more attempt, and one after exactly the returned delay |
| `LoginLimiter.RawDelayIsEnoughIff` | internal/api/loginlimit.go:113-114 | in exact arithmetic, at one refusal, the returned delay is enough exactly when the wait was a whole number of nanoseconds or the key is locked out |
| `LoginRounding.RawDelayFallsShort` | internal/api/loginlimit.go:105-114 | with every operation rounded to double precision, the run at the default rate on which the returned delay is too short: a burst, an attempt two seconds later refused with exactly ten seconds, and one exactly ten seconds after that refused again |
| `LoginRounding.ExactWithoutRounding` | internal/api/loginlimit.go:99-114 | without rounding that bucket is the exact one |
| `LoginRounding.NearestRounds` | internal/api/loginlimit.go:105-114 | a rounding with the properties used exists: a number is nearest to at most one of 53 bits |
| `LoginLimiter.LockoutHolds` | internal/api/loginlimit.go:99-103 | until a lockout ends every attempt is refused, unless the key signs in: pruning does not lift it and failures only extend it |
| `LoginLimiter.ThresholdLocks` | internal/api/loginlimit.go:117-145 | the failure that reaches the threshold starts a full lockout |
| `TrafficPipeline.TrafficIsConserved` | cmd/observer/traffic_collector.go:278-390 | over any run of lines, flushes and insert failures, each app environment's requests, statuses and bytes equal accumulator plus pending plus in flight plus stored |
| `TrafficPipeline.CountersMatchTheStore` | cmd/observer/prom.go:98-136 | a Prometheus counter is the sum of the rows stored since it last began; with no sweep, of all rows |
| `TrafficPipeline.GaugesShowTheLastRow` | cmd/observer/prom.go:113-115 | in every reachable state a latency gauge shows, in seconds, the percentiles of the row stored last for its key |
| `TrafficPipeline.StripPortDropsPort` | cmd/observer/traffic_collector.go:406-426 | whatever the names are, exactly the port goes, so the name in a log line is the one the service was cached under |
| `TrafficPipeline.LiveMatchesStoreIff` | cmd/observer/traffic_collector.go:369-380 | the live cache was given exactly the stored rows if and only if no insert failed |
| `TrafficPipeline.LiveIsKept` | cmd/observer/traffic_collector.go:369-380 | its excess is exactly the rows of the failed inserts |
| `TrafficPipeline.ContentIsKept` | cmd/observer/traffic_collector.go:294-319 | in every reachable state a bucket holds min(requests, 1024) samples and every row has P50 <= P95 <= P99 |
| `TrafficPipeline.ReservoirHoldsSeen` | cmd/observer/traffic_collector.go:285-317 | in every reachable state a bucket's samples are a sub-multiset of the latencies of the lines counted into it since it was last drained, whatever the dice say, and it counted each of those lines once |
| `TrafficPipeline.ShutdownDrainsIff` | cmd/observer/traffic_collector.go:329-334 | the shutdown time closes every bucket a line can have opened exactly for whole-second buckets, or in the last second of the fallback |
| `TrafficPipeline.ShutdownEmptiesIff` | cmd/observer/traffic_collector.go:392-395 | over all runs, a shutdown flush after the last line empties the accumulator exactly under that condition |
| `TrafficPipeline.ShutdownLeavesNothing` | cmd/observer/traffic_collector.go:392-395 | under it, nothing is left of any run |
| `TrafficPipeline.ShutdownCanLeaveALine` | cmd/observer/traffic_collector.go:392-395 | otherwise a line of that very moment stays behind |
| `TrafficPipeline.TrafficCollector.ProcessLine` | cmd/observer/traffic_collector.go:259-321 | attribution, status classes, bytes and reservoir of one line |
| `TrafficPipeline.TrafficCollector.FlushBefore` | cmd/observer/traffic_collector.go:329-390 | one flush is a drain in some map order followed by an insert that either counts the rows or puts them back |
| `TrafficPipeline.TrafficCollector.FlushAll` | cmd/observer/traffic_collector.go:392-395 | the shutdown flush, emptying the accumulator under that condition |
| `Percentile.Compute` | cmd/observer/traffic_collector.go:428-441 | sorts in place without losing a sample, and interpolates |
| `Percentile.PercentileRises` | cmd/observer/traffic_collector.go:354-356 | a higher percentile is never smaller |
| `Percentile.PercentileIsInRange` | cmd/observer/traffic_collector.go:428-441 | every percentile lies between the least and the greatest sample, which are the 0th and the 100th |
| `Percentile.PercentileIgnoresOrder` | cmd/observer/traffic_collector.go:432 | only the multiset of samples matters |
| `LiveCaches.LiveCache.Add` | cmd/observer/live_traffic_cache.go:31-48 | each point is appended to its series, which is then trimmed |
| `LiveCaches.LiveCache.Sweep` | cmd/observer/live_traffic_cache.go:135-150 | every series is trimmed and empty ones go, in any order |
| `LiveCaches.TrimPoints` | cmd/observer/live_traffic_cache.go:152-161 | drops the longest prefix of points before the cutoff |
| `LiveCaches.CacheHoldsTheWindow` | cmd/observer/live_metrics_cache.go:38-154 | after any additions and sweeps, a window starting at or after every cutoff holds exactly the points ever added to it |
| `LiveCaches.QueryTraffic` | cmd/observer/live_traffic_cache.go:50-133 | the accumulate-sort-emit loops compute the group-by of the window: sums and request-weighted latencies per bucket, in order |
| `LiveCaches.LiveTrafficIsGroupBy` | cmd/observer/store.go:375-388 | a live traffic answer is the database's group-by over every row ever added |
| `LiveCaches.RowsAddUpToWindow` | cmd/observer/live_traffic_cache.go:81-131 | the rows add up to the window in every quantity |
| `LiveCaches.QueryMetrics` | cmd/observer/live_metrics_cache.go:57-125 | one series per pod with points, by name, each with the averages of its buckets |
| `LiveCaches.LiveMetricsAreGroupBy` | cmd/observer/store.go:194-199 | a live metrics answer is the database's group-by over every point ever added for the pod |
| `EnvDiff.LiteralIffText` | cmd/cli/diff_report.go:269-308 | a declaration resolves to a digest exactly when it determines a value, and it is that value's digest |
| `EnvDiff.InSyncMeansSameValue` | cmd/cli/diff_report.go:538-542 | with a separating digest, in sync means the app's Secret holds the declared value, and conversely |
| `EnvDiff.UnappliedIffStillTracking` | cmd/cli/diff_report.go:544-569 | a tracked mismatch is reported as unapplied exactly when the Secret still holds what was last applied, and as shadowed only for sources that are not the user's |
| `EnvDiff.BuildFindings` | cmd/cli/diff_report.go:351-471 | an opted-out environment has no findings; otherwise the list names everything declared or mounted, each finding explained by its name, sorted, and free of repeats exactly when the spec is |
| `EnvDiff.ReportIsUnique` | cmd/cli/diff_report.go:402-471 | with distinct spec names there is only one such report, whatever the order of the maps |
| `EnvDiff.EnvChanges` | cmd/cli/diff_report.go:696-725 | a row for each name that differs and no other, by name |
| `EnvDiff.NoChangesIffEqual` | cmd/cli/diff_report.go:709-725 | no rows exactly when live and file resolve to the same |
| `EnvDiff.ReplayGivesFile` | cmd/cli/diff_report.go:709-725 | replaying the rows turns the live declarations into the file's |
| `EnvDiff.BuildCrdChanges` | cmd/cli/diff_report.go:683-728 | the rows of each environment are exactly the changes between what the live app and the file's declare for it |
| `EnvDiff.NothingToApplyIff` | cmd/cli/diff_report.go:683-728 | no rows at all exactly when both declare the same for every environment |
| `EnvDiff.SpecDigests` | cmd/cli/diff_report.go:756-770 | the loops resolve the first environment of that name against its own bindings |
| `EnvDiff.LastDeclarationWins` | cmd/cli/diff_report.go:756-770 | each declared name has the value of its last declaration |

## Left out

- ActivityLog.BackfillIncreasingIffRoom: requires numbers that are not negative; the code never stores a negative one.
- ActivityLog.BackfillDistinctIffRoom: requires stored numbers that rise; in an unordered log such as `[5, 0, 3]` the numbers can stay distinct although recency order is lost.
- ActivityPaging.PagingIsSound: numbers stay within 64 bits; after that many appends to one log the counter would wrap.
- CursorPaging.EveryKeyHasItsTurn: a key that was trimmed before its turn is not shown; that is what the cursors promise.
- ProxyManager.EveryoneCanFinish: finishing is possible from every state and moves are bounded; that the scheduler runs every goroutine is not part of the model.
- ProxyManager.AppProxyManager.Publish: a panic while creating an entry would leave the key pending; panics are not modelled.
- TemplateText.GivenValuesAreMeantIff: names are without `$` and `}`, and templates are sequences of holes and of text that opens no placeholder where it stands; an opening that is never closed is not such text.
- TemplateVars.SubstituteVars: the YAML round trip that strips the extension block is a parameter; the template text is what remains of it.
- EnvSecret.BuildSecret: the four key annotations are sets of names; the code joins them with commas, which no valid name contains, and lists with two sources for one name, which no PUT or PATCH writes, are not covered.
- LoginLimiter.RawDelaySufficesIff: exact arithmetic; in double precision the delay can fall short for the rates it calls enough, as `LoginRounding.RawDelayFallsShort` shows for the default rate, and which rates and times those are is not characterised.
- LoginLimiter.WaitingIsRewarded: exact arithmetic, like `LoginLimiter.HeaderDelayIsEnough`; rounding is not covered.
- LoginLimiter.AttemptsAreBounded: a full table of busy entries lets new keys through unthrottled, by design, and a key that was idle and dropped starts with a full bucket; the bound is for runs in which the key meets neither, or the latter only where `PruningIsHarmlessIff` holds.
- TrafficPipeline.TrafficIsConserved: rows still pending when the process exits are lost, as in the code.
- LiveCaches.LiveMetricsAreGroupBy: a step of zero or less is replaced by a default in the cache; the database query is compared for positive steps.
- EnvDiff.InSyncMeansSameValue: the digest shown is a truncated salted hash, so different values can collide; the statement assumes a digest that separates them.
- Floating-point rounding, but for `LoginRounding`: tokens, latencies and averages are real numbers, and statements that depend on a nanosecond or on the last digit are about those; metrics that are counts are integers.
- 64-bit overflow of counters and durations, and the saturation of time differences at 292 years.
- Deleting and re-creating the log object, the Secret or their namespace while requests run; a missing namespace is the step that skips, and marshalling errors are steps that fail.
- The annotation that stores the spec's last applied digests, and Secret labels with the write their change causes.
- Real backoff lengths, request timeouts and cancellation other than of a waiting proxy caller.
- A listener that fails after it was published, and the reverse proxy itself.
- Images, ports, volumes, health checks and parsing in the compose conversion; a file is its services and their dependencies.
- `LatestByApp`, per-app latest gauges, resource and volume gauges, and the rendering of the exposition format: easy members only.
- The human-readable details of report rows, and the third layer (rollout hashes), which is one comparison.
- SQL's LIKE is a parameter, and strings compare by character code, which is byte order for UTF-8 text.
- HTTP, JSON, authorization, the command-line flags and the UI.
- Environment rename, clone and delete, member and domain guards: sequences over several objects without atomicity.
