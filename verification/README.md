# cipher-shield, verified

cipher-shield is a package firewall: a registry proxy intercepts npm and PyPI downloads, a tiered
scanner gives each package a verdict, and a store remembers verdicts and exceptions. This project
models the parts of it that carry a protocol, an algorithm or a grammar, and proves what they are for.

Verify everything with `dafny verify dfyconfig.toml`.

## What is modelled

| file | part of the system |
|---|---|
| `Shield.dfy`, `Text.dfy` | shared values; the string operations the components use |
| `Levenshtein.dfy` | the edit-distance table: it computes the length of a shortest chain of edits, a metric |
| `Badlist.dfy` | the known-bad index and the typosquat decision |
| `RateLimit.dfy` | the per-IP token bucket, with pruning of idle buckets |
| `Store.dfy` | the scan cache, scan history and exception tables; the cache against the log of saves |
| `HistoryRuns.dfy` | the capped history under repeated, reordered and differing deliveries and pruning |
| `Migration.dfy` | schema migration by any number of instances that may stop half-way |
| `Pipelines.dfy` | verdicts and one tiered scan over the store |
| `Cve.dfy` | the findings made of advisories, and what the CVSS threshold makes of them |
| `Runs.dfy` | whole runs: how soon an exception works; no block outside enforce mode |
| `Interleavings.dfy` | how soon an exception works when scans overlap |
| `ScanLockfile.dfy` | the two passes of a lockfile scan |
| `Heuristic.dfy` | the heuristic score, and the findings and verdict it comes with |
| `Paths.dfy` | tarball paths: printing, the two path grammars, dispatch |
| `Rewrite.dfy` | rewriting origins in registry pages, and routing requests back |
| `Poetry.dfy`, `Yarn.dfy` | the line-oriented lockfile parsers |
| `Interception.dfy` | the metadata check against the tarball check; what becomes of a tarball; server and proxy exceptions |

Code that changes state is a class or a method with the loop of the original, proved against a
specification function; what the system promises is then proved about that function.

Strings are sequences of bytes, one character each; case and white space are those of ASCII.
Instants are integers (nanoseconds), or real seconds in the limiter.

## Where code and documentation disagree

The model follows the code.

- `docs/faq.md:80` says exceptions take effect immediately. The cache is consulted first, so a flagged
  package can stay blocked for up to an hour (`Runs.ExceptionHoldsWithinTheHour`,
  `Runs.ExceptionBoundIsTight`), counted from the end of the last scan that had already looked for an
  exception (`Interleavings.ExceptionHoldsAnHourAfterLastSave`). A scan obeys the exception iff no live
  flagged row is cached: `Runs.ExceptionYieldsToCache`.
- `internal/pipeline/pipeline.go:19` says a trigger of 101 disables Claude entirely. As long as one source
  pattern occurs in some text, 101 is exactly where the heuristic tier stops asking for it
  (`Heuristic.NeverAsksIff`), but known-bad hits and high CVSS scores still do: `Heuristic.HighTriggerRunsClaudeIff`, with the input `Heuristic.TriggerOf101RunsClaude`.
- `README.md:59` says Claude triggers on a heuristic score or a high-CVSS CVE. A serious known-bad finding
  asks for it as well, and it runs only with a tarball: `Pipelines.FreshFindingsIff`.
- `README.md:50` says the edit distance catches `reqeusts` and `lodahs`. Two swapped bytes are two edits
  (`Badlist.SwapIsTwoEdits`), and names under 8 bytes are allowed one: a swapped name is suspected iff it is
  longer, or close to another popular name (`Badlist.SwappedNameIff`, with the input `Badlist.LodahsIsMissed`).
- `internal/pipeline/pipeline.go:22-24` says findings block from the CVSS threshold on and warn below it.
  The first half holds iff the threshold is 7.0, the second at no positive threshold
  (`Cve.BlocksFromIff`, `Cve.WarnsBelowIff`, with the input `Cve.ThresholdOf9BlocksAt8`); for two
  advisories whose severities and scores are in opposite order, no threshold fits
  (`Cve.DisagreementBreaksEveryThreshold`).
- `internal/db/sql_store.go:95-96` says every migration is applied exactly once in order. That holds iff
  no instance commits on a stale version: `Migration.OnceIffNoneStale`.
- `internal/api/handlers_scan.go:122` announces a rescan with the tarball. If the first result is in the
  cache, it is repeated iff it is still served, and otherwise an exception or all tiers answer
  (`ScanLockfile.TarballPassRepeatsIff`, with the input `ScanLockfile.TarballFindingIsDropped`); if it
  could not be saved, an exception or all tiers answer (`ScanLockfile.UnsavedFirstIsScannedAgain`).
- `README.md:39` says the metadata check catches malicious packages, `CHANGELOG.md:61` that known-bad ones
  are blocked before the tarball is requested. For npm the two checks use one name
  (`Interception.NpmTarballIsGuarded`). A PyPI page is checked as the client spells it, its files by their
  normalized name, and the first check speaks for the second iff the spelling has neither underscore nor
  dot: `Interception.PypiPageGuardsItsFilesIff`, with the input `Interception.UnderscorePassesMetadata`.
- `internal/db/sql_store.go:618-620` makes one key of ecosystem, name and version. A package has its key
  to itself iff its name and version have no colon: `Store.OwnsKeyIff`.

## Model

| member | source | states |
|---|---|---|
| Levenshtein.EditDistance | internal/analyzer/badlist/typosquat.go:33-60 | The array-filling method returns the length of a shortest chain of single-byte inserts, deletes and substitutions: some chain has that length, none is shorter. |
| Levenshtein.DistanceIsShortestChain | internal/analyzer/badlist/typosquat.go:33-60 | The recurrence of the table defines exactly the shortest-chain length. |
| Levenshtein.NoChainIsShorter | internal/analyzer/badlist/typosquat.go:50-57 | Every chain of edits is at least as long as the table's value. |
| Levenshtein.ShortestChainExists | internal/analyzer/badlist/typosquat.go:50-57 | Some chain of edits is exactly as long as the table's value. |
| Levenshtein.DiagonalNeedsNoMin | internal/analyzer/badlist/typosquat.go:52-53 | Taking the diagonal without a minimum on equal bytes gives the same value as the textbook three-way minimum. |
| Levenshtein.ShortestChainIsMetric | internal/analyzer/badlist/typosquat.go:33-60 | The shortest-chain length is zero iff the strings are equal, symmetric, satisfies the triangle inequality, and lies between the length difference and the larger length. |
| Levenshtein.DistanceTriangle | internal/analyzer/badlist/typosquat.go:50-57 | Triangle inequality of the table's values. |
| Levenshtein.Min3 | internal/analyzer/badlist/typosquat.go:62-73 | The result is one of the three arguments and no larger than any of them. |
| Badlist.Nearest | internal/analyzer/badlist/typosquat.go:87-98 | The scan answers with the first of the nearest popular names and its distance; nothing and 99 for an exact match or when nothing is closer than 99. |
| Badlist.BadlistAnalyzer.TyposquatTarget | internal/analyzer/badlist/typosquat.go:75-99 | The same for the popular names of the ecosystem; nothing for an unknown ecosystem. |
| Badlist.SuspicionIsExact | internal/analyzer/badlist/badlist.go:212-232 | The distance test succeeds iff the name has at least 5 bytes, is not popular itself, and is within 1 edit (under 8 bytes) or 2 edits of a popular name; the reported distance is never 0. |
| Badlist.SuspectedIffFewEdits | internal/analyzer/badlist/badlist.go:212-232 | In terms of edits: a name of at least 5 bytes that is not popular is suspected iff one edit makes it a popular name, or two if it has at least 8 bytes. |
| Badlist.SwapIsTwoEdits | internal/analyzer/badlist/typosquat.go:33-60 | Swapping two different neighbouring bytes is exactly two edits. |
| Badlist.SwappedNameIff | README.md:50 | A popular name with two neighbouring bytes swapped is suspected iff it has 8 bytes or more, or some other popular name is one edit away. |
| Badlist.LodahsIsMissed | README.md:50 | Of two announced misspellings, reqeusts is suspected and lodahs is not, as long as no other popular name is one edit away from it. |
| Badlist.BuildIndex | internal/analyzer/badlist/badlist.go:151-168 | Looking a lower-cased name up in the index yields exactly what a linear case-insensitive scan of the list yields, in order. |
| Badlist.SeverityNames | internal/analyzer/badlist/badlist.go:237-249 | Each severity is told by its name in any case; every other word stands for Info. |
| Badlist.BadlistAnalyzer.constructor | internal/analyzer/badlist/badlist.go:151-168 | Both ecosystems are indexed, next to their popular names. |
| Badlist.BadlistAnalyzer.Hits | internal/analyzer/badlist/badlist.go:189-210 | One finding for each list entry whose name agrees up to case and whose version is the requested one, empty or `*` (any version, if none is requested), with the entry's severity, in list order. |
| Badlist.KnownBadIff | internal/analyzer/badlist/badlist.go:197-232 | Tier 1 reports something as known-bad iff some entry has the name up to case and a version that is empty, `*` or the requested one; then there is one finding per such entry in list order, and otherwise at most a high typosquat finding. |
| Badlist.BadlistAnalyzer.Analyze | internal/analyzer/badlist/badlist.go:188-235 | The known-bad findings, of which there are some iff an entry is about the package; otherwise one typosquat finding about the first nearest popular name iff the name is suspected; otherwise nothing. |
| RateLimit.IpLimiter.Allow | internal/api/ratelimit.go:47-64 | A call is admitted iff the refilled bucket holds a token, and then spends it; a new address starts with a full bucket. |
| RateLimit.IpLimiter.Prune | internal/api/ratelimit.go:66-78 | Exactly the buckets idle for more than 1800 seconds are dropped; the others stay as they are. |
| RateLimit.TokensAreTightestAllowance | internal/api/ratelimit.go:47-64 | A bucket holds exactly the smallest, over all earlier calls, of burst plus refill since that call minus admissions since it. |
| RateLimit.AdmissionIsExact | internal/api/ratelimit.go:47-64 | Call n is admitted iff for every call k up to n the admissions in [k, n) plus one are at most burst + rate * (t_n - t_k). |
| RateLimit.WindowIsBounded | internal/api/ratelimit.go:13-18 | No window of calls admits more than burst + rate * its length. |
| RateLimit.TokensStayInRange | internal/api/ratelimit.go:54-63 | Tokens stay between 0 and burst. |
| RateLimit.AnswerIsOwn | internal/api/ratelimit.go:47-78 | After any history of calls and prunes on any addresses, a call is answered from the call times of its own address alone. |
| RateLimit.PruningIsUnobservable | internal/api/ratelimit.go:66-78 | Every call is answered as by a limiter that never prunes, provided half an hour refills the bucket. |
| RateLimit.LimiterIsExact | internal/api/ratelimit.go:47-78 | The limiter with all addresses and prunes admits a call iff the window rule holds on its address's own calls. |
| RateLimit.ConfiguredLimitersRefill | internal/api/server.go:66-67 | Both configured limiters refill completely in half an hour. |
| RateLimit.PruningNeverShowsIff | internal/api/ratelimit.go:66-78 | Over all histories, no answer depends on pruning iff the burst is below one token (no call is ever admitted) or half an hour refills the bucket. |
| RateLimit.SlowRefillShowsPruning | internal/api/ratelimit.go:66-78 | For every limiter that refills more slowly, a run in which a prune turns a refusal into an admission. |
| Store.SqlStore.GetCachedResult | internal/db/sql_store.go:306-326 | The stored result under the package's key, stamped, iff it has not expired. |
| Store.SqlStore.SaveResult | internal/db/sql_store.go:328-387 | Together or not at all: the cache row is replaced but for its package columns, with four hours or one to live; a history row that stays is the one that was there; the only new one is the result, under its id; and rows go only beyond 1000, none of them newer than one that stays. |
| Store.SqlStore.PruneHistory | internal/db/sql_store.go:489-508 | Exactly the rows older than that many days of 24 hours go, the others do not change, and the number of rows gone is reported. |
| Store.SqlStore.GetException | internal/db/sql_store.go:389-404 | A result iff some unexpired row has the ecosystem, the name, and the version or none; it is one of these, an exact version if there is one, and no other of its kind is more recent. |
| Store.SqlStore.ListExceptions | internal/db/sql_store.go:406-432 | Every row, expired ones included, each once, most recent first. |
| Store.SqlStore.AddException | internal/db/sql_store.go:434-445 | Adds the row iff its id is new. |
| Store.SqlStore.DeleteException | internal/db/sql_store.go:447-457 | Removes the row; an error iff there is none. |
| Store.OwnsKeyIff | internal/db/sql_store.go:618-620 | Among packages with colon-free ecosystems, a package shares its key with no other iff its name and version are colon-free. |
| Store.KeyIsInjective | internal/db/sql_store.go:618-620 | Two packages with colon-free ecosystems and names, whatever their versions, have the same key iff they are the same. |
| Store.KeysCollideOnColons | internal/db/sql_store.go:618-620 | With a colon in a name, two packages can share a key. |
| Store.CacheServesLastSaved | internal/db/sql_store.go:306-359 | After any log of saves, a lookup serves the last result saved under the key iff it is younger than four hours, or one if it does not allow. |
| Store.CacheRefinesLog | internal/db/sql_store.go:306-359 | With colon-free ecosystems and names that is the last result saved for the package itself. |
| Store.AlwaysOwnResultIff | internal/db/sql_store.go:306-359 | After every log of saves a package is served its own last result iff its name and version are colon-free; otherwise some log makes it another package's. |
| HistoryRuns.NewestIsUnique | internal/db/sql_store.go:377-380 | With distinct scan times there is only one way to keep the newest k rows. |
| HistoryRuns.NewestAfterRecord | internal/db/sql_store.go:361-385 | Adding a row to the newest k and trimming gives the newest k of all rows and the new one. |
| HistoryRuns.NewestSince | internal/db/sql_store.go:361-385 | Keeping the newest rows and dropping those before a cutoff commute. |
| HistoryRuns.HistoryIsNewestDelivered | internal/db/sql_store.go:361-385 | After any sequence of saves, with duplicates, in any order, the history is exactly the k newest of everything delivered. |
| HistoryRuns.HistoryIsConfluent | internal/reporter/reporter.go:34-57 | Two histories that were sent the same results in any order and multiplicity are equal. |
| HistoryRuns.HistoryIsConfluentUpToStamps | internal/pipeline/pipeline.go:83-85 | Results served from a proxy's cache come again under their scan id, stamped: histories that were sent the same results up to stamps are equal up to them. |
| HistoryRuns.RowsNeverChange | internal/db/sql_store.go:361-385 | Over every run, trimmed and pruned or not: a row is a result sent while there was none under its id, and later results under that id never touch it. |
| HistoryRuns.FirstReportWins | internal/db/sql_store.go:361-375 | Whatever is sent under one scan id, while all fit and nothing is pruned: the table holds exactly the first result sent under each id. |
| HistoryRuns.PrunedHistoryAgrees | internal/db/sql_store.go:489-508 | With pruning in between, the history still agrees with the newest k of everything delivered on every row at or above the highest cutoff used. |
| HistoryRuns.HistoryTracksDeliveries | internal/db/sql_store.go:361-385 | The invariant of every run behind these results. |
| Migration.Database.Migrate | internal/db/sql_store.go:212-239 | Applies and records the missing statements in order up to the first failing transaction; without a failure, all of them. |
| Migration.MaxVersion | internal/db/sql_store.go:216-219 | The largest recorded version, or 0. |
| Migration.MigrateIsARun | internal/db/sql_store.go:212-239 | What the contract of Migrate describes is a run of one instance of the transition system, from reading the version to finishing or stopping. |
| Migration.NextIsSound | internal/db/sql_store.go:212-239 | Every step of any instance keeps the invariant. |
| Migration.MigrationIsSafe | internal/db/sql_store.go:212-239 | In any interleaving of any number of instances, each possibly stopping between transactions: a recorded version v means statements 1..v were applied, and a finished instance means all were. |
| Migration.OnceIffNoneStale | internal/db/sql_store.go:95-97 | Every statement is applied exactly once and in order iff no instance commits on a stale version. |
| Migration.SerialMigrationsApplyOnce | internal/db/sql_store.go:212-239 | Instances that do not overlap, however many stop half-way, apply each statement once and in order, and all of them once one finishes. |
| Migration.OverlappingMigrationsMayRepeat | internal/db/sql_store.go:212-239 | Two overlapping instances can both apply the first statement. |
| Pipelines.ComputeVerdict | internal/pipeline/pipeline.go:184-202 | Block iff enforcing and some finding is critical or high; allow iff every finding is low or info; otherwise warn. |
| Pipelines.VerdictIsJoin | internal/pipeline/pipeline.go:184-202 | The verdict on two lists of findings together is the worse of the two verdicts. |
| Pipelines.VerdictIgnoresOrder | internal/pipeline/pipeline.go:184-202 | The verdict does not depend on the order of findings. |
| Pipelines.TarballNeverSoftens | internal/pipeline/pipeline.go:105-163 | Running the tarball tiers as well never gives a milder verdict. |
| Pipelines.FreshFindingsIff | internal/pipeline/pipeline.go:102-158 | A finding is in the result iff some tier that ran and answered has it, tiers 3 and 4 only with a tarball; Claude answers only if a serious known-bad finding, a high CVSS score or a high heuristic score asks for it. |
| Pipelines.FreshFindingsAreCounted | internal/pipeline/pipeline.go:102-158 | Each finding is in the result as often as the tiers that ran and answered report it. |
| Pipelines.FreshBlocksIff | internal/pipeline/pipeline.go:102-202 | In enforce mode a critical or high finding of any of the four tiers blocks, and nothing else does; the answer is allow iff all of them find nothing worse than low. |
| Pipelines.FindingsComeInTierOrder | internal/pipeline/pipeline.go:102-158 | The findings of tier 1 come first, then those of tier 2, then those of tier 3. |
| Pipelines.FailuresAreMisses | internal/pipeline/pipeline.go:82-100 | A failing cache or exception lookup answers as if the table were empty, and a failing save leaves the cache alone. |
| Pipelines.DefaultsFillIn | internal/pipeline/pipeline.go:56-66 | A pipeline configured with nothing is the default one, and what is set stays. |
| Heuristic.NeverAsksIff | internal/pipeline/pipeline.go:137-139 | For any fixed patterns of which one source pattern occurs in some text: no files whatsoever reach the trigger iff it is at least 101. |
| Heuristic.HighTriggerRunsClaudeIff | internal/pipeline/pipeline.go:18-20 | With a trigger of 101 or more and any score the scan of files can have, Claude is used iff it answers, a tarball is there, and tier 1 is serious or tier 2 has a high CVSS score. |
| Heuristic.TriggerOf101RunsClaude | internal/pipeline/pipeline.go:18-20 | An input where a trigger of 101 does not disable Claude. |
| Cve.Analyze | internal/analyzer/cve/osv.go:83-127 | One finding per advisory, with the numeric score or the one its severity stands for, and the named severity or the one its score stands for. |
| Cve.ScoresAgreeWithNames | internal/analyzer/cve/osv.go:150-187 | The score that stands for a named severity is in that severity's own range, and a higher score never gives a milder severity. |
| Cve.NamedSeverities | internal/analyzer/cve/osv.go:150-176 | The severities a database may name, MODERATE among them and in any case, with the scores that stand for them. |
| Cve.ScoreDecides | internal/analyzer/cve/osv.go:164-187 | In enforce mode an advisory whose severity and score have one source blocks from 7.0 and warns from 4.0, whatever the threshold. |
| Cve.BlocksFromIff | internal/pipeline/pipeline.go:22-24 | For all lists of such advisories: "block iff some score reaches the threshold" holds iff the threshold is 7.0. |
| Cve.WarnsBelowIff | internal/pipeline/pipeline.go:22-24 | "Below the threshold, warn" holds at no threshold above 0. |
| Cve.BlocksAloneIff | internal/analyzer/cve/osv.go:164-187 | For an advisory with a severity and a score of its own, the block rule holds iff being serious and reaching the threshold agree. |
| Cve.DisagreementBreaksEveryThreshold | internal/analyzer/cve/osv.go:164-187 | A serious and a milder advisory with scores in the opposite order break the block rule at every threshold. |
| Cve.ThresholdOf9BlocksAt8 | internal/pipeline/pipeline.go:22-24 | An input with threshold 9.0 and score 8.0 that is blocked. |
| Pipelines.Pipeline.RunTiers | internal/pipeline/pipeline.go:102-158 | Exactly the findings of the tiers that ran and answered, in order, and whether Claude was among them. |
| Pipelines.Pipeline.Analyze | internal/pipeline/pipeline.go:77-182 | Answers from the cache, else by exception, else with exactly what the tiers find, blocking iff some tier has a critical or high finding in enforce mode; saves only results of the tiers, and leaves exceptions alone. |
| Runs.WarnModeNeverBlocks | internal/pipeline/pipeline.go:184-202 | Outside enforce mode, over any run from a cache without block rows and without reported blocks, no scan returns block. |
| Runs.CacheStaysSane | internal/db/sql_store.go:328-359 | Over any run, cache rows expire by the time to live of their verdict. |
| Runs.RowIsFrozen | internal/pipeline/pipeline.go:83-100 | While an exception stands, the package's cache row is never rewritten. |
| Runs.ExceptionYieldsToCache | internal/pipeline/pipeline.go:82-100 | Under a standing exception a scan answers allow iff no live flagged row is cached. |
| Runs.ExceptionHoldsWithinTheHour | internal/pipeline/pipeline.go:82-100 | Once a standing exception was added at t, every scan of the package from t + 1h on answers allow, whatever else happens in the run. |
| Runs.ExceptionBoundIsTight | docs/faq.md:80 | A package flagged just before is still blocked one nanosecond before that hour ends. |
| Interleavings.StepsMakeAScan | internal/pipeline/pipeline.go:79-182 | With nothing in between, the steps of a scan (cache, exception, save) are the atomic scan. |
| Interleavings.ExceptionHoldsAnHourAfterLastSave | internal/pipeline/pipeline.go:82-100 | Scans overlapping freely: if the scans already past the exception lookup save by u, every scan that looks in the cache from u + 1h on answers allow. |
| Interleavings.LateSaveOutlastsTheHour | internal/pipeline/pipeline.go:89-174 | A scan that looked before the exception and saves at any later time blocks the package until an hour after that save. |
| ScanLockfile.HandleScanLockfile | internal/api/handlers_scan.go:111-136 | The result of every package after both passes, in terms of the scans served before it. |
| ScanLockfile.RescansIff | internal/api/handlers_scan.go:122-136 | The second pass makes exactly the calls of those packages. |
| ScanLockfile.OnlyFlaggedAreRescanned | internal/api/handlers_scan.go:122-136 | Exactly the packages whose first result warns or blocks and whose tarball was fetched get a second answer; all others keep the first. |
| ScanLockfile.TarballPassRepeatsIff | internal/api/handlers_scan.go:122-136 | If the first result of a flagged package was saved or itself cached, and its cache row left alone, the rescan returns that result iff its lookup works and the time to live is not over; otherwise it answers by exception or from all tiers, and it is the tiers' answer iff it does not repeat and no exception says otherwise. |
| ScanLockfile.UnsavedFirstIsScannedAgain | internal/api/handlers_scan.go:122-136 | If that save failed and no other call uses the row, the rescan answers by exception or from all tiers. |
| ScanLockfile.TarballPassRepeatsFirst | internal/api/handlers_scan.go:122-136 | So within the time to live, with a clock that does not run backwards and working lookups of that row, the rescan returns exactly the first result, marked as cached. |
| ScanLockfile.TarballFindingIsDropped | internal/api/handlers_scan.go:122-136 | An input where a critical finding in the tarball is missing from the answer. |
| Heuristic.AnalyzeFiles | internal/analyzer/heuristic/heuristic.go:298-420 | The findings of the rules each file trips, in order, with the hook count carried across files; the score is the sum of the findings' weights, capped at 100. |
| Heuristic.InstallScriptNames | internal/analyzer/heuristic/heuristic.go:347-348 | The three file names tested for install scripts come down to one suffix. |
| Heuristic.PackageEmitsIff | internal/analyzer/heuristic/heuristic.go:310-413 | For every rule: the package gets its finding iff the text of some file, or one of the three lifecycle scripts of a package.json, trips it. |
| Heuristic.ScoreIsWeightedSum | internal/analyzer/heuristic/heuristic.go:20-37 | The score is the sum of the weights over the texts of the files, with 15 once three install hooks have come together, 15 for a binary and 5 without a README, capped at 100. |
| Heuristic.HeuristicBlocksIff | internal/analyzer/heuristic/heuristic.go:298-418 | In enforce mode the tier's findings block, whatever the score, iff the text of some file has one of six source patterns, or an install script or lifecycle hook downloads something. |
| Heuristic.HeuristicAllowsIff | internal/analyzer/heuristic/heuristic.go:298-418 | In any mode the tier's findings allow a package iff at most the README is missing. |
| Heuristic.AddedFileNeverLowers | internal/analyzer/heuristic/heuristic.go:310-344 | One more file at any position of a package never lowers its score. |
| Heuristic.FileSwapIsNeutralIff | internal/analyzer/heuristic/heuristic.go:310-344 | Swapping two neighbouring files leaves the sum unchanged iff they are not both package.json files or would trip the hook count alike when first. |
| Heuristic.CapKeepsTrigger | internal/pipeline/pipeline.go:137-139 | For a trigger up to 100, capping the score never changes whether Claude is asked. |
| Paths.MatchIsGreedy | internal/proxy/proxy.go:451-452 | The matcher accepts exactly the paths of the npm expression, with its unique name and the longest possible file part. |
| Paths.NpmNameIff | internal/proxy/proxy.go:451-452 | The names are those of the expression: no slash and no at sign in front, or @scope/name with neither part empty nor holding a slash. |
| Paths.PrintedPathIsDetected | internal/proxy/proxy.go:459-471 | The path printed for a package is detected with the same name and with what follows the version's last hyphen-digit. |
| Paths.TarballPathIs | internal/registry/tarball.go:23-32 | The printed paths of unscoped and scoped packages. |
| Paths.ExtraExtensionIsDropped | internal/proxy/proxy.go:465 | The path printed for a version with .tgz at its end is detected as the version without it. |
| Paths.VersionSurvivesIff | internal/registry/tarball.go:22-32 | The whole package comes back iff no hyphen in the version is followed by a digit. |
| Paths.NumericPreReleaseIsCut | internal/proxy/proxy.go:452 | The path printed for any package at 1.0.0-0.3.7 is detected as that package at 0.3.7. |
| Paths.PypiPathMatchIff | internal/proxy/proxy.go:454-455 | The matcher reads a path as a name and version iff the path has the whole form of the PyPI expression, directories and file name, with them in it. |
| Paths.FileIsDetectedIff | internal/proxy/proxy.go:459-485 | The path of a source archive or wheel is detected as its package iff the file name writes the package without a hyphen. |
| Paths.PrintedPathIsInterceptedIff | internal/proxy/proxy.go:284-311 | A printed npm path reaches the tarball handler iff the package is not called simple, and the npm registry iff it is called neither simple nor packages. |
| Paths.DispatchIff | internal/proxy/proxy.go:291-311 | For every request: a page iff below /simple/; else a tarball iff it is detected as one and there is a pipeline; else metadata of a name iff it is a GET that starts with the npm name, is no npm tarball, and is not below /packages/; else passed through. |
| Paths.PackagePageIsMetadata | internal/proxy/proxy.go:304-308 | A GET for any npm package is given to the metadata handler under the package's name. |
| Paths.FileIsInterceptedIff | internal/proxy/proxy.go:291-302 | The path of a source archive or wheel reaches the tarball handler as its package iff the file name writes the package without a hyphen and the path is not below /simple/. |
| Paths.BothPointsSeeTheSameName | internal/proxy/proxy.go:528-545 | The metadata request and the tarball download of an npm package are recognized under the same name. |
| Paths.NpmMetaIff | internal/proxy/proxy.go:530-545 | A request is for the metadata of a name iff it is a GET that starts with that npm name and is neither an npm tarball nor a PyPI path. |
| Paths.SimplePageNames | internal/proxy/proxy.go:549-554 | The page /simple/name/ is checked under the name as written there. |
| Paths.RequestsAreRouted | internal/proxy/proxy.go:682-710 | Pages go to pypi.org, files to files.pythonhosted.org, everything else to registry.npmjs.org. |
| Paths.NormalizedIff | internal/proxy/proxy.go:487-491 | The normalized name is the only one without capitals, underscores and dots that reads the same byte by byte. |
| Paths.SimpleNameIff | internal/proxy/proxy.go:549-554 | For any path below /simple/: the name checked is the element that follows; there is no check iff that is empty. |
| Paths.NormalizationKeepsCaseIff | internal/proxy/proxy.go:487-491 | Normalizing changes a name beyond case iff it has an underscore or a dot. |
| Rewrite.Index | internal/proxy/proxy.go:600 | The first occurrence at or after a position, or -1 iff there is none. |
| Rewrite.RewriteChangesOnlyOrigins | internal/proxy/proxy.go:598-600 | A page is origin-free pieces joined by the origin; the rewritten page is the same pieces joined by the base. |
| Rewrite.NoOriginSurvives | internal/proxy/proxy.go:658-659 | After the rewrite no origin is left anywhere, if base and origin cannot overlap. |
| Rewrite.RewriteIsIdempotent | internal/proxy/proxy.go:658-659 | Under that condition, for any origin, rewriting twice is rewriting once. |
| Rewrite.RemovalIsExact | internal/proxy/proxy.go:658-659 | For an origin none of whose proper suffixes is a prefix of it: every page is rid of the origin iff base and origin cannot overlap. |
| Rewrite.IdempotenceIsExact | internal/proxy/proxy.go:658-659 | For such an origin, rewriting is idempotent on all pages iff base and origin are equal or cannot overlap. |
| Rewrite.OverlapLeavesOrigin | internal/proxy/proxy.go:658-659 | For every base that can overlap such an origin, a page that keeps an origin. |
| Rewrite.OriginsAreUnbordered | internal/proxy/proxy.go:598-659 | Both rewritten origins are of that kind. |
| Rewrite.ListenAddressIsPathless | internal/proxy/proxy.go:668-680 | Without a public URL the base is a scheme and a host, with no path. |
| Rewrite.LocalAddressIsNamed | internal/proxy/proxy.go:672-680 | A listen address without a host stands for localhost. |
| Rewrite.HttpBaseCannotOverlapIff | internal/proxy/proxy.go:668-680 | A base over plain HTTP cannot overlap either origin iff its host and port do not end in a beginning of "https:". |
| Rewrite.HttpsBaseCannotOverlapIff | internal/proxy/proxy.go:668-680 | A base over HTTPS: iff in addition neither its host and port nor the origin's begin with the other. |
| Rewrite.PublicUrlRemovesIff | internal/proxy/proxy.go:668-680 | With a public HTTPS URL, trailing slashes or not, every page is rid of an origin iff that holds. |
| Rewrite.ListenAddressRemovesIff | internal/proxy/proxy.go:668-680 | Without a public URL, every page is rid of an origin iff the listen address does not end that way. |
| Rewrite.NumericPortRemovesAll | internal/proxy/proxy.go:668-680 | So with any numeric port: nothing is left of the origins, and rewriting is idempotent. |
| Rewrite.NpmUrlIsRestoredIff | internal/proxy/proxy.go:682-705 | Rewriting an npm URL and routing the request gives the URL back iff the base has no path and the URL's path is not a PyPI path. |
| Rewrite.FileUrlIsRestoredIff | internal/proxy/proxy.go:682-705 | The same for a files.pythonhosted.org URL iff the base has no path and the URL's path begins with /packages/. |
| Rewrite.AnyNpmUrlIsRestoredIff | internal/proxy/proxy.go:682-705 | With a base without a path, for any npm URL: it is restored iff its path is not a PyPI path and does not repeat the origin (unless the base is the origin). |
| Rewrite.AnyFileUrlIsRestoredIff | internal/proxy/proxy.go:682-705 | The same for any files.pythonhosted.org URL and /packages/. |
| Poetry.Reader.Flush | internal/lockfile/poetry.go:27-37 | Reports the block read so far if it is a complete, non-development package, and starts afresh. |
| Poetry.Reader.Assign | internal/lockfile/poetry.go:56-71 | Each key sets what it stands for, and nothing else. |
| Poetry.Reader.ReadLine | internal/lockfile/poetry.go:39-72 | One line moves the parser as its kind (package, other section, assignment, other) demands. |
| Poetry.Parse | internal/lockfile/poetry.go:16-75 | The references a file's lines stand for. |
| Poetry.ParseConcat | internal/lockfile/poetry.go:42-51 | Parse(A ++ B) = Parse(A) ++ Parse(B) whenever B starts with a section header. |
| Poetry.OtherSectionsAreSkipped | internal/lockfile/poetry.go:47-54 | What follows a [metadata header, or an array of tables other than [[package]], is not read until the next package. |
| Poetry.LineMeans | internal/lockfile/poetry.go:56-91 | A line counts by the key in front of its first equals sign, and only for name, version, category dev and optional true. |
| Poetry.NormalizedIff | internal/lockfile/poetry.go:77-79 | The normalized name is the only one without capitals and underscores that reads the same byte by byte; dots stay. |
| Poetry.PaddedLineIsTheSame | internal/lockfile/poetry.go:40 | White space around a line makes no difference. |
| Poetry.PrintedBlocksAreRead | internal/lockfile/poetry.go:16-91 | Printing any blocks, with any further lines that open no section, and parsing gives back in order what they are read as: the last name and version win, and any dev or optional mark drops the block. |
| Poetry.PrintedBlocksAreReported | internal/lockfile/poetry.go:16-91 | If the further lines have no key the parser reads, these are the non-development, non-optional packages with normalized names. |
| Yarn.Parse | internal/lockfile/yarn.go:16-66 | The references a file's lines stand for; the seen set is always the set of their keys. |
| Yarn.ParseConcat | internal/lockfile/yarn.go:23-64 | If B starts with a header, Parse(A ++ B) is Parse(A) followed by the references of Parse(B) whose keys are new. |
| Yarn.RefsAreBoundedByHeaders | internal/lockfile/yarn.go:50-63 | At most one reference per header, no key twice, and no empty name or version. |
| Yarn.CommentsAreSkipped | internal/lockfile/yarn.go:27-30 | Comments and blank lines can be put anywhere, whatever they end in. |
| Yarn.PrintedBlocksAreRead | internal/lockfile/yarn.go:16-66 | Printing any blocks and parsing gives back the distinct packages their headers read as, each where it occurs first; these are the printed ones if no range has an at sign. |
| Yarn.IndentedIsWellFormed | internal/lockfile/yarn.go:32-64 | The round trip covers blocks with any indented lines around the version. |
| Yarn.NameIsReadIff | internal/lockfile/yarn.go:34-47 | A header is read as the name it was printed for iff the range has no at sign (aliases have one). |
| Interception.ExceptionCache.IsExcepted | internal/reporter/exceptions.go:47-69 | True iff some listed exception has the ecosystem, the name up to case, and, if a version is asked about, that version or none. |
| Interception.ExceptionCache.Refresh | internal/reporter/exceptions.go:79-108 | The server's list is taken over as a whole, or the stale one is kept. |
| Interception.ShouldBlockName | internal/proxy/proxy.go:497-526 | Blocks iff the check succeeded, the mode is enforce, some finding is critical or high, and no exception of the ecosystem has the name up to case. |
| Interception.HandleTarball | internal/proxy/proxy.go:314-400 | What a client gets for a tarball: an error iff upstream fails, unavailable iff enforcing and the scan fails, and otherwise the tarball iff not enforcing, not blocked, or excepted. |
| Interception.TarballPassesIff | internal/proxy/proxy.go:314-400 | End to end: a tarball scanned anew in enforce mode passes iff an exception covers it, on the server or in the proxy, or no tier has a critical or high finding. |
| Interception.VersionCoverIsNameCover | internal/reporter/exceptions.go:47-53 | An exception for a version covers the name-only check. |
| Interception.VersionFindingsAreNameFindings | internal/analyzer/badlist/badlist.go:197-210 | The known-bad findings for any version are a subsequence of those for the name alone. |
| Interception.PassedNameHasNoBadVersion | internal/proxy/proxy.go:497-526 | A name that passes the metadata check in enforce mode, with no exception covering it, has no critical or high known-bad version under that name. |
| Interception.MetadataGuardsIff | internal/proxy/proxy.go:497-526 | Over all lists, exceptions and versions: passing the check under one name rules out serious known-bad findings under another iff the two are equal up to case. |
| Interception.NpmTarballIsGuarded | internal/proxy/proxy.go:459-471 | For npm that holds between the request that is dispatched as the package's metadata and whatever name and version the printed tarball path is detected as. |
| Interception.PypiFileIsGuardedIff | internal/proxy/proxy.go:473-491 | For a PyPI page and an archive or wheel it holds iff the page's name and the normalized name of the file are equal up to case. |
| Interception.PypiPageGuardsItsFilesIff | internal/proxy/proxy.go:473-491 | For a page and a file of one package: iff the page's name has neither underscore nor dot. |
| Interception.UnderscorePassesMetadata | internal/proxy/proxy.go:549-554 | An input: python_sqlite passes the metadata check, and its archive is detected as the known-bad python-sqlite. |
| Interception.ServerExceptionReachesProxy | internal/db/sql_store.go:389-432 | Whatever the server excepts, a proxy synced with the server's list excepts. |
| Interception.ProxyExceptsBeyondServerIff | internal/reporter/exceptions.go:54-69 | The proxy excepts more than the server iff every covering row has expired, has the name in another case, or is for a version none was asked for. |

## Left out

- Sockets, HTTP forwarding, TLS, upstream proxies, process start-up and the dashboard: I/O.
- JSON, gzip, tar and zip decoding, SQL text and drivers: decoded values and tables as maps take their place.
- The Claude and OSV clients and the heuristic regular expressions: their answers are inputs of a call.
- Users, passwords, tokens, download events, dismissals and violation lists: single statements on their own tables.
- `internal/lockfile/npm.go` and `internal/lockfile/requirements.go`: one loop each after decoding.
- The two tables of popular names of `internal/analyzer/badlist/typosquat.go:5-30`: arguments of the constructor.
- Descriptions and references of findings, scores and durations in results, and the types and texts of heuristic findings.
- Severities and verdicts outside the named constants, which a reported result could carry.
- Non-ASCII case folding and white space; the Go scanner's line-length limit; parsing of query strings, user names and percent-escapes in URLs.
- The 200-file limit of the archive extraction and the 45-second and 5-minute request timeouts.
- RateLimit.IpLimiter.Prune: the test and the deletion of a key are one step, because the theorem is about the limiter without the race between them; rounding of floating-point tokens is not modelled.
- Pipelines.Pipeline.Analyze: reads the clock once and runs atomically; Interleavings.dfy splits it into its steps for the exception theorem only.
- HistoryRuns.HistoryIsNewestDelivered: takes distinct scan times, because SQL leaves the order of equal ones open (the table operations themselves allow either choice), and one result per scan id; HistoryRuns.RowsNeverChange and HistoryRuns.FirstReportWins take any results.
- Migration.Database.Migrate: the failure of the two statements before the loop is the case of an instance that stops at once.
- ScanLockfile.HandleScanLockfile: the branch for an error of the scanner, because this scanner never returns one.
- Paths.MatchIsGreedy: the regular expression is written out as a grammar with its greedy choice, not interpreted as a pattern.
- Paths.FileIsDetectedIff: takes the three directory elements as given; which ones a registry picks is not modelled.
- Yarn.PrintedBlocksAreRead: takes versions without an at sign, which no npm version has; with one, two packages can share the key that repetitions are dropped by.
- Rewrite.NpmUrlIsRestoredIff: takes a path that does not itself contain the origin; for a base without a path Rewrite.AnyNpmUrlIsRestoredIff covers every path.
- Rewrite.FileUrlIsRestoredIff: likewise, with Rewrite.AnyFileUrlIsRestoredIff.
