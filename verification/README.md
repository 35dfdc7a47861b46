# QA Lab: verified model

QA Lab crawls a web site level by level, runs rules over its pages, groups and scores the findings
and prints reports; a job backend queues such scans, runs them under a per-organization limit,
schedules them, and guards its API with sessions, a login lockout and request counters. This
project models the algorithms and protocols behind that and proves what they guarantee, for every
input and every run. `dafny verify dfyconfig.toml` checks all of it.

| file | what it models |
|---|---|
| `Concurrency.dfy` | the worker pool, for every order in which awaited calls may settle |
| `Robots.dfy`, `CrawlGraph.dfy`, `Crawl.dfy` | the crawl: eligibility, distance in the link graph, the level loop with both cut-offs |
| `RuleEngine.dfy`, `Findings.dfy`, `Duplicates.dfy` | batch and streaming rule runs, grouping by id, cross-page searches |
| `Scoring.dfy`, `QualityGate.dfy` | score, grade, severity counts, the gate |
| `CsvReport.dfy`, `Escapers.dfy` | the CSV report against an RFC 4180 reader, the HTML and Markdown escapers |
| `Base32.dfy` | TOTP secrets in base32 with the wrapping 32-bit accumulator |
| `OrgLimiter.dfy`, `ScanProtocol.dfy` | the Redis slot counter and the life of scan rows, all interleavings |
| `Sessions.dfy`, `Lockout.dfy` | refresh-token families, login lockout |
| `Schedules.dfy`, `Throttle.dfy`, `RateLimiter.dfy`, `Spacing.dfy` | claiming schedules, fixed request windows, request pacing, and the window arithmetic they share |
| `Slug.dfy` | slugify and uniqueSlug of three services |
| `Prelude.dfy` | options, sums, lists without repetition |

Code that changes variables in place is modelled by methods and classes proved against functions;
main theorems are about those functions, and laws in terms of the inputs' own fields and literal
values pin down what the functions stand for. Where several requests or workers interleave between
awaited calls, the model is a state machine with one action per awaited call, and theorems range
over all runs.

What the proofs showed beyond the documented promises:

- A streaming rule run need not agree with a batch run. A plugin that exports only `run` is skipped
  by streaming, and of a rule that throws somewhere batch drops all findings, streaming only those
  of the page it threw on. They agree exactly when each rule alone does (`RuleEngine.StreamingAgrees`,
  spelled out for these two kinds of rules in `RuleEngine.StreamingAgreesIff`).
- CANCELLED and COMPLETED are not final in general: `ScanProtocol.CancelledFinalIff` and
  `ScanProtocol.CompletedFinalIff` say exactly when they are, and two runs show them overwritten.
- The organization limit is exceeded after the counter's key expires under a running scan
  (`OrgLimiter.ExpiryBreaksLimit`), by at most the value that expired (`OrgLimiter.HoldersBounded`).
  `OrgLimiter.KeepsLimitIff` says exactly which states keep the limit until the next expiry.
- One live refresh token per family holds only while no token is presented during its own rotation
  (`Sessions.OneLiveIff`, `Sessions.OverlapLosesIt`), and burning a family does not end it while
  another rotation is in flight (`Sessions.BurnEndsFamilyIff`). In the same way logoutAll and a
  password reset sign a user out until the next login exactly when no login or refresh of the user
  is past its checks (`Sessions.LogoutAllIff`).
- A stored scan whose enqueueing throws is never processed: it stays QUEUED until a user cancels or
  deletes it. `ScanProtocol.NeverProcessedIff` says exactly which queued scans share that fate.
- A request window admits at most `2 * limit - 1` hits, and that many can happen.
- A unique slug may be longer than the 60 characters the API accepts (`Slug.SuffixOverflows`), exactly
  when its base leaves no room for the suffix (`Slug.CandidatesMatch`, `Slug.LongerMatches`), and a
  slug may be shorter than the two it demands, exactly for a text with one letter or digit
  (`Slug.ShortIff`).

## Model

| member | source | states |
|---|---|---|
| Concurrency.MapWithConcurrency | src/utils/concurrency.js:5-22 | whatever order calls settle in: every index is mapped exactly once, in claim order, result i is the mapper's answer for item i, the largest number of calls in flight is exactly min(max(1, limit), n), and the run ends |
| Concurrency.Resume | src/utils/concurrency.js:9-14 | when one call settles, its result is stored, the next unclaimed index is claimed, and the in-flight count falls once nothing is left to claim |
| Concurrency.IdleMeansDone | src/utils/concurrency.js:16-21 | once every worker has returned, every cell of the result is filled |
| Crawl.AddCandidate | src/siteCrawler.js:114-128 | the pending level stays the cap-limited list of new, filter-passing, allowed keys in discovery order; the visited set is exact below the cap; the blocked counter is the number of visited barred keys |
| Crawl.BuildLevel | src/siteCrawler.js:112-149 | the next level comes from the level's links in order, the sitemap after the seed's own links, nothing at the depth limit |
| Crawl.CrawlSite | src/siteCrawler.js:75-158 | with R the keys within maxDepth eligible links of the seed: min(maxPages, number of R) pages are fetched, namely the first ones of the unlimited breadth-first order, whatever the concurrency; `truncated` is true exactly when R is larger than maxPages |
| Crawl.FetchedPages | src/siteCrawler.js:75-151 | in every crawl, cut off or not: no key twice, nothing ineligible but the seed, recorded depth is the shortest eligible link distance, and every key strictly closer than a fetched one is fetched |
| Crawl.PageMeaning | src/siteCrawler.js:94-100 | a page handed over carries its key, the depth it was found at and its own links |
| Crawl.FetchedMeetsOptions | src/siteCrawler.js:67-71 | every fetched key but the seed is not empty, matches no exclude pattern, matches some include pattern if there are any, has no Disallow prefix when robots.txt counts, lies at most maxDepth away, and a page fetched one level earlier, or the sitemap, leads to it |
| Crawl.UncutFetchesIff | src/siteCrawler.js:112-149 | a crawl that is not cut off fetches exactly those keys, led to by its pages above maxDepth, that meet these options |
| Crawl.BlockedIff | src/siteCrawler.js:120-124 | the barred keys counted by a crawl that is not cut off are exactly those that a page above maxDepth leads to, that pass the patterns and that have a Disallow prefix |
| Robots.EligibleIff | src/robotsTxt.js:56-59 | eligibility in terms of the exclude, include and Disallow lists |
| CrawlGraph.SiftMeaning | src/siteCrawler.js:114-128 | admitting candidates one by one yields each new eligible key once and marks exactly the relevant keys as seen |
| CrawlGraph.FrontierIsLevel | src/siteCrawler.js:82-151 | following only the last level's links finds exactly the keys at the next distance, each once |
| CrawlGraph.WithinIsPath | src/siteCrawler.js:112-151 | a key is within distance d exactly when an eligible link path of at most d links leads to it |
| CrawlGraph.OrderCount | src/siteCrawler.js:82-151 | an unlimited crawl of n levels fetches as many pages as there are keys at distance less than n |
| RuleEngine.DelegatingRun | src/rules/seoRules.js:20-32 | the built-in form of `run`: per-page findings in page order followed by the final pass over the summaries, or a throw when any hook throws |
| RuleEngine.RunRules | src/ruleEngine.js:3-31 | the batch result is what each rule's own `run` returns, in rule order, nothing from rules that throw |
| RuleEngine.RunPerPageRules | src/ruleEngine.js:59-76 | one page's findings in rule order, skipping only the rules that throw on it |
| RuleEngine.SummaryStore.Collect | src/ruleEngine.js:81-98 | each rule's list grows by its own summary of the page, and lists of other ids do not change |
| RuleEngine.SummaryStore.RunFinalRules | src/ruleEngine.js:100-119 | each final pass sees exactly its rule's summaries, in page order |
| RuleEngine.RunStreaming | src/index.js:287-344 | the streaming pipeline's findings are all per-page rows in page order, then the final row |
| RuleEngine.StreamContents | src/ruleEngine.js:59-119 | a streaming run holds exactly what the page hooks and final hooks return |
| RuleEngine.BatchContents | src/ruleEngine.js:3-31 | a batch run holds exactly what the rules' own `run` returns |
| RuleEngine.FinalPassSees | src/ruleEngine.js:81-110 | the final pass receives exactly the non-null answers of the summary hook, in page order |
| RuleEngine.FinalPassSeesAll | src/ruleEngine.js:88-109 | when every page has a summary, the final pass receives one per page |
| RuleEngine.DelegatingThrowsIff | src/rules/seoRules.js:20-32 | a delegating `run` throws exactly when the page or summary hook does on some page or the final hook does |
| RuleEngine.OwnerDecides | src/ruleEngine.js:3-119 | with finding ids not shared between rules, both orders show under each id just what its one rule contributes |
| RuleEngine.StreamingAgrees | src/ruleEngine.js:3-119 | for any rules with disjoint finding ids, streaming and batch agree on the occurrence sequence of every id if and only if each rule's own two contributions agree |
| RuleEngine.StreamingAgreesIff | src/core/ruleRegistry.js:4-18 | for delegating rules and run-only plugins: they agree if and only if no run-only rule finds anything and each rule that throws somewhere contributes nothing to the streaming run |
| RuleEngine.PluginIsSkipped | src/ruleEngine.js:62-63 | a run-only plugin whose finding batch shows and streaming does not |
| RuleEngine.ThrowingIsDropped | src/ruleEngine.js:13-26 | a delegating rule whose finding streaming shows and batch does not |
| RuleEngine.StreamingPreservesReport | src/index.js:287-363 | when every rule's `run` delegates to its hooks and none throws, streaming gives the same groups up to order and the same score, grade and severity counts as batch |
| Findings.AggregateFindings | src/findingAggregator.js:19-65 | one group per id in order of first occurrence, labels from the first occurrence, all occurrences counted, distinct non-empty pages, first five examples |
| Findings.CountsAddUp | src/findingAggregator.js:22-35 | the groups' occurrence counts add up to the number of findings |
| Findings.OnlyMeaning | src/findingAggregator.js:22-35 | a group's occurrences are exactly the findings with its id |
| Findings.GroupMeaning | src/findingAggregator.js:22-63 | a group counts the findings with its id, takes its labels from the first of them and shows page and details of the first five |
| Findings.GroupsInOrder | src/findingAggregator.js:20-37 | groups come in order of first occurrence |
| Findings.PagesMeaning | src/findingAggregator.js:41-43 | affected pages are the distinct non-empty pages of the occurrences, each once |
| Findings.PagesInOrder | src/findingAggregator.js:41-43 | affected pages come in order of first occurrence |
| Findings.SameGroups | src/findingAggregator.js:19-65 | lists that agree on the occurrences of each id have the same groups up to order |
| Duplicates.FindClusters | src/rules/seoRules.js:168-212 | the Map-filling loop and the loop over its entries report the repeated keys in order of first occurrence |
| Duplicates.ReportedIffShared | src/rules/seoRules.js:168-212 | a title, description or hash is reported exactly when it is non-empty and two different entries have it |
| Duplicates.ClustersMeaning | src/rules/assetRules.js:137-155 | each shared value is reported once, with all its users in order |
| Duplicates.UrlsMeaning | src/rules/seoRules.js:173-182 | the users of a value are the entries that have it, in order |
| Duplicates.FindDuplicates | src/rules/assetRules.js:7-11 | exactly the urls referenced more than once, each with its number of references, in order of first occurrence |
| Scoring.CalculateScore | src/scoring.js:33-87 | score is 100 less the sum of group costs, floored at zero and rounded half up; grade by its thresholds; each severity count is the number of issue types with that severity |
| Scoring.OneIssueType | src/scoring.js:6-58 | one issue type found n times costs 20, 10, 5, 2 or 0 points by severity, plus a tenth of that for each of up to twenty further occurrences, and counts once under its severity |
| Scoring.SameScore | src/scoring.js:33-87 | score, grade and counts depend only on what occurs under each id |
| Scoring.MoreFindingsNeverHelp | src/scoring.js:33-87 | one more finding never raises the score, never lowers a severity count, and the score stays within 0 and 100 |
| Scoring.DeductionBounds | src/scoring.js:13-57 | the total deduction is at least that of one occurrence of each issue type and at most three times it |
| QualityGate.EvaluateQualityGate | src/qualityGate.js:30-63 | the gate fails exactly when some issue type at or above the threshold exists or the score is below the minimum, and gives reasons exactly when it fails |
| QualityGate.ThresholdNames | src/qualityGate.js:6-16 | the five severity names, with blanks around them ignored, are the thresholds; any other word is none |
| QualityGate.ThresholdMeaning | src/qualityGate.js:34-51 | which severity counts each threshold makes fail |
| QualityGate.FailedStaysFailed | src/qualityGate.js:30-63 | a failed gate stays failed when findings are added |
| CsvReport.TableRoundTrip | src/csvReport.js:4-33 | a reader following section 2 of RFC 4180 recovers any printed table exactly, whatever quotes, commas, CR or LF its fields hold |
| CsvReport.ReportRoundTrip | src/csvReport.js:14-33 | the report reads back as its header and one row per group |
| CsvReport.QuotedIff | src/csvReport.js:4-12 | a field is printed as it is exactly when it has no quote, comma, CR or LF, and in quotes otherwise |
| CsvReport.RecordShape | src/csvReport.js:30-32 | fields are separated by a comma and a record ends in CR LF |
| CsvReport.JoinMeaning | src/csvReport.js:26 | example pages are joined by a semicolon and a blank, empty ones left out |
| CsvReport.ReportColumns | src/csvReport.js:15-28 | the header, and which column shows what of a group |
| CsvReport.DecimalMeaning | src/csvReport.js:25 | the page count is printed in digits without leading zeros and stands for itself |
| Escapers.ChainIsOnePass | src/markdownReport.js:7-18 | a chain of whole-string replacements in which no output is rewritten later equals one pass over the characters |
| Escapers.MarkdownRoundTrip | src/markdownReport.js:7-18 | the Markdown chain is one pass, is undone by a left inverse, and its outputs are exactly the strings without bare special characters |
| Escapers.HtmlRoundTrip | src/htmlReport.js:1-8 | the same for the HTML chain |
| Escapers.EscapersAreInjective | src/htmlReport.js:1-8 | texts with equal escaped forms are equal, in both escapers |
| Escapers.EscapersJoin | src/markdownReport.js:7-18 | both escapers work on each character alone |
| Escapers.HtmlCharacters | src/htmlReport.js:1-8 | which five characters become which entities, and that every other stays |
| Escapers.MarkdownCharacters | src/markdownReport.js:7-18 | which characters become entities, which get a backslash, and that every other stays |
| Escapers.HtmlHasNoMarkup | src/htmlReport.js:1-8 | escaped HTML text holds no angle bracket and no quote |
| Escapers.MarkdownHasNoTags | src/markdownReport.js:7-18 | escaped Markdown holds no angle bracket |
| Escapers.MarkdownIsDelimited | src/markdownReport.js:7-18 | every backtick, bracket, bar and star of escaped Markdown stands after an odd number of backslashes |
| Base32.Encode | qa-lab-backend/src/auth/totp/totp.service.ts:65-80 | the text is the bytes' bits in groups of five, zero-filled at the end, as in section 6 of RFC 4648 without padding: ceil(8n/5) characters, although the accumulator wraps at 32 bits |
| Base32.Decode | qa-lab-backend/src/auth/totp/totp.service.ts:82-99 | the bytes are the bits of the alphabet characters of the upper-cased input, less an incomplete last byte |
| Base32.RoundTrip | qa-lab-backend/src/auth/totp/totp.service.ts:65-99 | decoding an encoded secret gives the bytes back, also after a change of case and with separators, padding or foreign characters put in |
| Base32.AlphabetIs | qa-lab-backend/src/auth/totp/totp.service.ts:66 | the alphabet, in both directions |
| Base32.NoOtherSymbols | qa-lab-backend/src/auth/totp/totp.service.ts:89-90 | no character outside the alphabet has a digit |
| Base32.LowerCaseDecodes | qa-lab-backend/src/auth/totp/totp.service.ts:84 | a secret typed in lower case decodes to the same bytes |
| Base32.OthersAreIgnored | qa-lab-backend/src/auth/totp/totp.service.ts:84-90 | a character that is no letter and none of 2 to 7 may stand anywhere |
| Base32.WordOperations | qa-lab-backend/src/auth/totp/totp.service.ts:71-94 | the integer reading of the word operators does to each of the 32 bits what they do: `<<` and `>>>` by any amount move bits and fill with zeros, `or` with the next byte or digit and the two masks combine bit by bit |
| OrgLimiter.HoldersBounded | qa-lab-backend/src/scans/org-concurrency.limiter.ts:35-54 | in every interleaving: counter plus discarded value is counted attempts plus those leaked by crashes, and slot holders exceed the limit by at most the value discarded |
| OrgLimiter.ExactWithoutExpiry | qa-lab-backend/src/scans/org-concurrency.limiter.ts:35-54 | without an expiry the counter is exact, holders stay within the limit and the clamp never fires |
| OrgLimiter.ReleaseMeaning | qa-lab-backend/src/scans/org-concurrency.limiter.ts:48-54 | a release takes one off, and resets a used-up counter to zero |
| OrgLimiter.ExpiryBreaksLimit | qa-lab-backend/src/scans/org-concurrency.limiter.ts:38-40 | a run in which one expiry lets two scans hold a limit of one |
| OrgLimiter.KeepsLimitIff | qa-lab-backend/src/scans/org-concurrency.limiter.ts:35-54 | from any state and for any limit, every continuation up to the next expiry keeps the limit if and only if it holds now, the counter covers the counted attempts and no reset to zero is pending |
| OrgLimiter.ExpiryHarmlessIff | qa-lab-backend/src/scans/org-concurrency.limiter.ts:38-40 | an expiry leaves a safe state safe exactly when no attempt is counted at that moment (a negative limit leaves its slack) |
| ScanProtocol.EveryRunConsistent | qa-lab-backend/src/scans/scan.processor.ts:138-313 | in every interleaving of workers, API calls and reaper: COMPLETED implies a report, at most one report commits, error is null exactly in QUEUED, RUNNING and COMPLETED, terminal rows have completedAt |
| ScanProtocol.NeverRequeued | qa-lab-backend/src/scans/scans.service.ts:147-179 | no scan returns to QUEUED |
| ScanProtocol.RereadKeepsCancel | qa-lab-backend/src/scans/scan.processor.ts:217-224 | a scan cancelled during its run, threatened by that attempt alone, stays cancelled for good once the attempt has looked again |
| ScanProtocol.ReleasingOnlyLeaves | qa-lab-backend/src/scans/scan.processor.ts:314-316 | an attempt that saw the cancellation can afterwards only release its slot or crash |
| ScanProtocol.RereadGoesOn | qa-lab-backend/src/scans/scan.processor.ts:221-291 | on any other status the attempt writes what the scanner answered: COMPLETED with a report, FAILED or CANCELLED |
| ScanProtocol.BeginMeaning | qa-lab-backend/src/scans/scan.processor.ts:108-126 | a worker takes up any stored scan that is not CANCELLED or COMPLETED |
| ScanProtocol.CancelMeaning | qa-lab-backend/src/scans/scans.service.ts:413-432 | a user can cancel exactly a QUEUED or RUNNING scan, and what that writes |
| ScanProtocol.WriteMeaning | qa-lab-backend/src/scans/scan.processor.ts:138-310 | what the RUNNING, COMPLETED and FAILED writes record |
| ScanProtocol.ReapMeaning | qa-lab-backend/src/scans/scan-reaper.service.ts:37-50 | the reaper fails exactly the rows RUNNING since before the cutoff and touches no other |
| ScanProtocol.SlotsBalance | qa-lab-backend/src/scans/scan.processor.ts:129-135 | every acquired slot is released exactly once, is still owned, or was lost in a crash or a rejected release |
| ScanProtocol.CancelledFinalIff | qa-lab-backend/src/scans/scans.service.ts:396-439 | a cancelled scan stays so in every continuation if and only if no enqueue answer and no worker attempt past its first read is outstanding for it |
| ScanProtocol.CompletedFinalIff | qa-lab-backend/src/scans/scan.processor.ts:217-310 | the same for a completed scan, where a cancel request that has read the row counts too |
| ScanProtocol.CancelledIsOverwritten | qa-lab-backend/src/scans/scan.processor.ts:120-145 | a run from the empty state in which a cancelled scan becomes RUNNING |
| ScanProtocol.CompletedIsOverwritten | qa-lab-backend/src/scans/scan.processor.ts:120-145 | a run from the empty state in which a completed scan becomes RUNNING |
| ScanProtocol.NeverProcessedIff | qa-lab-backend/src/queue/scan-queue.service.ts:44-63 | a QUEUED scan leaves that status in no continuation, except by a user's cancelling or deleting it, if and only if the queue holds no job for it and no enqueue answer or worker attempt is outstanding |
| ScanProtocol.StrandedForever | qa-lab-backend/src/schedules/schedules.service.ts:176-202 | a run from the empty state in which enqueueing throws and the stored scan is never processed |
| ScanProtocol.StepKeepsInv | qa-lab-backend/src/scans/scan-reaper.service.ts:37-57 | every single step, the reaper's conditional update included, keeps the rows consistent |
| Sessions.AuthService.Refresh | qa-lab-backend/src/auth/auth.service.ts:196-240 | a refresh is accepted exactly for a stored token, neither revoked nor replaced nor expired, of an active user; and the whole token table after acceptance, detected reuse or refusal |
| Sessions.RotationMeaning | qa-lab-backend/src/auth/auth.service.ts:230-240 | a rotation revokes and marks the old token and adds one good for seven days; nothing else changes |
| Sessions.BurningMeaning | qa-lab-backend/src/auth/auth.service.ts:213-216 | a burning revokes the family's live tokens and changes no other |
| Sessions.AuthService.Logout | qa-lab-backend/src/auth/auth.service.ts:268-274 | the one token is revoked and no other changes |
| Sessions.AuthService.LogoutAll | qa-lab-backend/src/auth/auth.service.ts:276-281 | all tokens of the user are revoked and no other changes |
| Sessions.InactiveIsRefused | qa-lab-backend/src/auth/auth.service.ts:226-228 | presenting a token of an inactive user changes no token and sets nothing in motion |
| Sessions.DeactivatedGainsNothing | qa-lab-backend/src/auth/auth.service.ts:226-228 | while a user is inactive and does not log in, only requests past their checks before can create live tokens for the user |
| Sessions.RefreshIsThreeSteps | qa-lab-backend/src/auth/auth.service.ts:202-240 | an accepted refresh split at its awaits, left undisturbed, has the effect of the method |
| Sessions.OneLiveToken | qa-lab-backend/src/auth/auth.service.ts:202-240 | in every run without overlapping presentations each family has at most one unrevoked token |
| Sessions.OneLiveIff | qa-lab-backend/src/auth/auth.service.ts:202-240 | from a state, that guarantee holds for all such continuations if and only if each family has a single live token or pending rotation |
| Sessions.OverlapLosesIt | qa-lab-backend/src/auth/auth.service.ts:202-240 | one token accepted during its own rotation loses the guarantee |
| Sessions.FamilyEndIff | qa-lab-backend/src/auth/auth.service.ts:211-240 | a family never again has a live token if and only if it has none and no rotation of it is in flight |
| Sessions.ReuseIsDetected | qa-lab-backend/src/auth/auth.service.ts:211-220 | presenting a stored revoked token is answered as reuse and its family is burned next |
| Sessions.BurnEndsFamilyIff | qa-lab-backend/src/auth/auth.service.ts:213-216 | whatever has run since the token was presented, the burning ends the family for good if and only if no rotation of it is in flight at that moment |
| Sessions.RefreshForks | qa-lab-backend/src/auth/auth.service.ts:202-240 | a run from the empty state that ends with two live tokens in one family |
| Sessions.EarlierTokensRefused | qa-lab-backend/src/auth/auth.service.ts:276-281 | after logoutAll, resetPassword or changePassword no token of the user stored by then is ever accepted again |
| Sessions.SignedOutIff | qa-lab-backend/src/auth/auth.service.ts:202-281 | until the next login a user never again has a live token if and only if none is live and no login or refresh of the user is past its checks |
| Sessions.LogoutAllIff | qa-lab-backend/src/auth/auth.service.ts:276-281 | logoutAll achieves that if and only if no login or refresh of the user is past its checks |
| Sessions.LogoutAllMissesLogin | qa-lab-backend/src/auth/auth.service.ts:141-173 | a run in which a login whose password was checked before logoutAll or a reset creates a live token afterwards |
| Sessions.LogoutAllMissesRefresh | qa-lab-backend/src/auth/auth.service.ts:230-240 | a run in which a refresh under way during logoutAll creates a live token afterwards |
| Sessions.RetentionKeepsVerdicts | qa-lab-backend/src/retention/retention.service.ts:47-54 | the sweep deletes only tokens that could no longer be accepted; a swept revoked token no longer triggers reuse detection |
| Sessions.SweepMeaning | qa-lab-backend/src/retention/retention.service.ts:47-54 | exactly the expired tokens and those revoked before the cutoff are deleted |
| Lockout.User.Login | qa-lab-backend/src/auth/auth.service.ts:131-171 | a login succeeds exactly for an active, unlocked user with the right password and, if enrolled, a right TOTP code; success resets count and lock, a wrong password adds one and from the eighth on locks for 15 minutes, and nothing else changes them |
| Lockout.User.ResetPassword | qa-lab-backend/src/auth/auth.service.ts:391-392 | a password reset clears the failure count and the lock |
| Lockout.WrongPasswordBound | qa-lab-backend/src/auth/auth.service.ts:135-171 | in any span of any history at most 8 wrong passwords per fresh start, counting one before the span, plus one per full lockout period reach the comparison |
| Lockout.BoundIsMet | qa-lab-backend/src/auth/auth.service.ts:142-154 | n wrong passwords do fit into n - 8 lockout periods |
| Schedules.SchedulesService.ClaimOneDueSchedule | qa-lab-backend/src/schedules/schedules.service.ts:210-241 | an oldest due unlocked row is claimed and advanced by its interval, or no such row exists |
| Schedules.SchedulesService.ProcessDueSchedules | qa-lab-backend/src/schedules/schedules.service.ts:146-205 | at most 20 claims, each possible when made, fewer only when nothing is left due; a scan row for each claim whose website and quota checks pass and whose write succeeds, and a count of those that are also enqueued |
| Schedules.SchedulesService.SetEnabled | qa-lab-backend/src/schedules/schedules.service.ts:91-117 | enabling puts the next run one interval ahead, disabling removes it, a missing schedule is refused |
| Schedules.SchedulesService.Create | qa-lab-backend/src/schedules/schedules.service.ts:48-68 | the new row: 24 hours and enabled unless asked otherwise, first run one interval ahead |
| Schedules.DisabledIsNotClaimed | qa-lab-backend/src/schedules/schedules.service.ts:230-233 | a schedule that is disabled, or was created so, is not claimed until it is enabled |
| Schedules.ClaimsAreSpaced | qa-lab-backend/src/schedules/schedules.service.ts:91-241 | over any tickers and any history of changes, claims of one schedule are an interval apart less the clock skew, and a window of width T holds at most floor(T / that distance) + 1 |
| Schedules.NoStarvation | qa-lab-backend/src/schedules/schedules.service.ts:224-240 | the schedules ahead of an untouched due one only become fewer, and each claim query that could have taken it takes one of them |
| Schedules.PassIsDistinct | qa-lab-backend/src/schedules/schedules.service.ts:146-205 | a pass shorter than an hour claims no schedule twice and changes no other |
| Throttle.Storage.Increment | qa-lab-backend/src/common/throttler-redis.storage.ts:31-51 | the key's new counter and expiry, the reply's fields, and that no other key changes |
| Throttle.LifeAdmits | qa-lab-backend/src/common/throttler-redis.storage.ts:39-44 | each life of a key admits exactly min(hits, limit) hits |
| Throttle.WindowBound | qa-lab-backend/src/common/throttler-redis.storage.ts:39-44 | any half-open window of one ttl admits at most 2 * limit - 1 hits, none when the limit is 0 |
| Throttle.WindowBoundIsMet | qa-lab-backend/src/common/throttler-redis.storage.ts:39-44 | a run of hits that fills a window with 2 * limit - 1 admitted ones |
| RateLimiter.Limiter.Wait | src/utils/rateLimiter.js:8-22 | the caller proceeds at the slot of its place in line; with no interval it never waits |
| RateLimiter.SlotIsMaximum | src/utils/rateLimiter.js:11-17 | the k-th slot is the maximum over j <= k of now_j + (k - j) * interval |
| RateLimiter.SlotIsEarliest | src/utils/rateLimiter.js:11-17 | no in-order schedule with that spacing serves any caller earlier |
| RateLimiter.RateBound | src/utils/rateLimiter.js:5-23 | slots keep the interval, so a window of width W holds at most floor(W / interval) + 1, even when the clock steps back |
| Slug.Slugify | qa-lab-backend/src/auth/auth.service.ts:475-494 | the result is the words of the lower-cased, trimmed text joined by single dashes, cut to 60 characters, without a dash at the end, or the fallback word when that is empty |
| Slug.SlugExample | qa-lab-backend/src/auth/auth.service.ts:480-493 | runs of other characters become one dash and none stands at either end |
| Slug.SlugIsValid | qa-lab-backend/src/organizations/dto/create-organization.dto.ts:24-27 | every result of slugify, for any text, has at most 60 characters and matches the pattern of the API |
| Slug.ShortIff | qa-lab-backend/src/organizations/dto/create-organization.dto.ts:23 | a slug has a single character, which the API does not accept, exactly when the lower-cased text has one letter a-z or digit |
| Slug.ShortName | qa-lab-backend/src/organizations/organizations.service.ts:19-20 | the accepted organization name "A!" gets a slug of one character |
| Slug.FixedPoints | qa-lab-backend/src/organizations/organizations.service.ts:230-249 | slugify, case folding and trimming included, leaves a text alone exactly when it matches the pattern and has at most 60 characters |
| Slug.MatchesIff | qa-lab-backend/src/organizations/dto/create-organization.dto.ts:25 | the regular expression, read as words joined by dashes, is the character-by-character condition |
| Slug.FallbackIff | qa-lab-backend/src/projects/projects.service.ts:152-171 | the fallback word is used exactly when nothing in the text folds to a letter a-z or a digit |
| Slug.AsciiFallbackIff | qa-lab-backend/src/projects/projects.service.ts:152-171 | for ASCII text: exactly when it has no letter of either case and no digit |
| Slug.UniqueSlug | qa-lab-backend/src/organizations/organizations.service.ts:251-267 | the first free candidate of at most twenty is returned, the base itself or the base, a dash and a suffix, and a conflict only when all twenty were taken |
| Slug.UniqueSlugOrLonger | qa-lab-backend/src/auth/auth.service.ts:504-517 | the same, but after twenty taken candidates a longer suffix is used unchecked |
| Slug.LongerMatches | qa-lab-backend/src/auth/auth.service.ts:516 | the last resort with eight hex digits matches the pattern, and keeps within 60 characters exactly when its base has at most 51 |
| Slug.SuffixOverflows | qa-lab-backend/src/auth/auth.service.ts:504-517 | a base of 60 letters whose suffixed slug has 65 characters, and one of 55 that fits with a suffix but not with the last resort |
| Slug.CandidatesMatch | qa-lab-backend/src/projects/projects.service.ts:173-191 | every candidate of a slug matches the pattern, and keeps within 60 characters exactly when its base has at most 60, or 55 for a suffixed one |
| Slug.SlugTwice | qa-lab-backend/src/auth/auth.service.ts:475-494 | slugify is idempotent, case folding and trimming included |
| Slug.Fallbacks | qa-lab-backend/src/projects/projects.service.ts:152-171 | the three fallback words are single words within the length, as the lemmas above ask |

## Left out

- Crawl.CrawlSite: for a truncated crawl `robotsBlockedCount` is only bounded above, since which barred keys were come across depends on where the pending level was cut; otherwise it is exact.
- Throttle.WindowBound: takes INCR and PEXPIRE as one step; a process that dies between them leaves a key that never expires.
- Lockout.WrongPasswordBound: takes the logins of one user one at a time; overlapping logins may read the same failure count.
- Schedules.PassIsDistinct: says nothing about passes of an hour or more.
- OrgLimiter, ScanProtocol and the interleaved part of Sessions are state machines on values, not classes: between two awaited calls anything else may run, so the unit of the model is the call. Attempt, request and row ids stand for the records the source keeps.
- Scan deletion of old reports by retention: it removes reports without touching scans and is not an action of ScanProtocol.
- `pagesScanned` progress updates, report size truncation, retries and backoff of the queue.
- HTTP, HTML parsing, the URL resolution of links and the robots.txt and sitemap parsers: a page's resolved links, the sitemap and the Disallow values are inputs of the crawl, fixed per key. The checks for private addresses are not modelled.
- A fetch or mapper that throws, abort signals, and the actual sleeping of the rate limiter.
- The predicates of the individual page rules; a rule is given by its hooks. Findings carry the fields that grouping and reports use.
- Rules that share an id, and hooks whose answers change between calls.
- Rounding of the score uses exact tenths instead of binary floating point. Severity names that are names of JavaScript object members are not treated specially.
- Case folding and white space outside ASCII: base32 input, severity names and titles use the ASCII rules. In Slug the folding of other characters is a parameter, one character at a time; the one context-dependent folding, of the final sigma, gives no slug character either way.
- ProcessDueSchedules does not model the options that a scheduled scan inherits; what its later calls answer is a parameter.
- Password hashing, JWTs, e-mail, TOTP codes, the single use of reset tokens, and the membership and quota checks around the modelled steps. Of a password reset only the effect on the lock (Lockout) and on the tokens (Sessions) is modelled.
- Clocks: Sessions, Lockout and Throttle have one clock that does not run backwards; Schedules allows the API's clock to lag behind the database's. Redis, PostgreSQL and BullMQ are represented by atomic steps.
