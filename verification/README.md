# Causure: verified models of the evidence gate and its neighbours

Causure decides whether a proposed change to an agent's harness is supported by evidence, and then carries that
decision through canary comparison, change selection, trace triage, a Check Run plan and a signed approval. This
project models the parts of it that decide something, in Dafny, and proves what they promise.

- `Wilson.dfy`, `Canary.dfy` (with `Reals.dfy`, `Rounding.dfy`): the Wilson score interval over exact reals, the
  three-way metric status, the sequential canary decision and the strict result parser.
- `Glob.dfy`, `Paths.dfy`, `Selection.dfy`: the compiler from path globs to regular expressions with a denotational
  meaning on both sides, pull-request file discovery page by page, and the choice of one component.
- `HostServer.dfy`, `ServiceShutdown.dfy`: the run-once, close-once host and the Windows service around it, as
  interleaved steps of any number of threads over two locks and a stop flag.
- `Tracing.dfy`, `Collector.dfy`, `Manifest.dfy`, `Grouping.dfy`, `Fixture.dfy`: redacting trace collection, the strict
  manifest parser, clustering into investigation fixtures and the strict fixture parser; `SpanRecords.dfy`,
  `FixtureReport.dfy`, `StrictParsers.dfy`: what manifests and fixtures say of the spans they come from, and exactly which
  documents are accepted.
- `Engine.dfy`, `GateLimits.dfy`, `GateEvidence.dfy`: the fifteen checks of the gate, its decision lattice, exactly how far
  decisions respect looser policies and reordered evidence, and what they measure in the raw evidence.
- `CheckRun.dfy`, `Approval.dfy`, `ApprovalRules.dfy`, `GateChain.dfy`: the plan that recomputes a decision, the signed
  approval chain with its time windows, and which approvals can be issued for what the gate decides.
- `Configuration.dfy`, `ProjectFile.dfy`, `ProjectName.dfy`, `ProjectUpgrade.dfy`, `ProjectStore.dfy`,
  `CaseDocument.dfy` (over `JsonTree.dfy`), `CaseView.dfy`, `CaseEvidence.dfy`: parser and printer pairs for project
  configurations and change cases, the upgrade of older configurations, the registration state machine, and what the gate
  reads of a case document.
- `Vocabulary.dfy`, `Sequences.dfy`, `Sorting.dfy`: shared enumerations, comprehensions and a stable sort.

`dafny verify dfyconfig.toml` checks everything.

## What turned out not to hold

- A collected manifest is refused by the manifest parser exactly when some span names itself as its parent: the
  collector has no such check (`Manifest.CollectedManifestParses`, `Manifest.SelfParentIsCollectedThenRefused`).
- A generated fixture is refused by the fixture parser exactly when the spans of some trace carry more than 10,000
  distinct models, or providers: the generator has no such limit (`Fixture.GeneratedFixtureParses`). One trace of n spans
  with a model each is such a manifest for every n above 10,000 (`Fixture.ManyModelsAreRefused`).
- A looser policy can lower a decision: it may judge, and so reject, a rate that the stricter one still found too few
  trials or controls for. It never does exactly when, for each minimum it relaxes, no rate can fail (the rate is zero;
  for positive controls, one pass among all but one of the old minimum meets it; for regression controls, critical
  failures are allowed as well), and it blocks on metrics only if the stricter one does
  (`GateLimits.LooserPolicyKeepsDecisionsExactly`). Approval alone is always kept (`Engine.LooserPolicyKeepsApproval`).
- Whether a case is approved is independent of the order of its evidence exactly under policies with a positive
  attribution margin (`GateLimits.OrderFreeApprovalNeedsMargin`). The decision as a whole depends on the order under every
  policy (`GateLimits.SomeDecisionDependsOnOrder`). For a given case it does not exactly when no hypotheses tie for the
  lead, the requirement is ambiguous or conflicting, evidence other than the attribution speaks against the change, or
  every tied leader would (`GateLimits.DecisionIgnoresOrderExactly`).
- A service that nobody harms can still end as failed. It does exactly when some stop closed the host after the service
  had read the stop flag as clear and before `run` claimed the host, or when something raised that nobody swallows:
  creating the controller, the listener (other than the expected error of a listener closed under its run), or a
  shutdown step (`ServiceShutdown.FailureIsExact`). So a stop of a listening service ends it cleanly, and a late one does
  not, with nothing else going wrong (`ServiceShutdown.OnlyLateStopsFail`); such runs exist (`ServiceShutdown.LateStopHappens`).
- The path `.` has no parts, yet the path validators accept it (`Paths.DotIsAccepted`), as the only one of its kind
  (`Paths.ContainedPathsLead`). A component may so have the repository root itself as its case file; all other case files
  lie at different places strictly below it (`ProjectFile.CaseFilesLieApart`).

## Model

| member | source | states |
|---|---|---|
| Wilson.WilsonIsScoreRegion | src/causure/canary.py:1193-1205 | a rate lies in the interval iff a score test at z does not reject it |
| Wilson.ClampsAreIdle | src/causure/canary.py:1205 | the max and min never change an end, and the observed rate lies strictly between distinct ends |
| Wilson.BoundsGrowWithEvents | src/causure/canary.py:1193-1205 | both bounds are nondecreasing in the event count |
| Wilson.IntervalsNestInZ | src/causure/canary.py:1193-1205 | a larger critical value only widens the interval |
| Wilson.ComplementMirrors | src/causure/canary.py:1193-1205 | counting non-events gives one minus the interval, reversed |
| Canary.StatusIsExact | src/causure/canary.py:1208-1250 | noninferior iff every plausible pair of true rates degrades within the bound, regression iff every one exceeds it |
| Canary.BetterCountsNeverLowerStatus | src/causure/canary.py:1208-1250 | better candidate or worse baseline counts never lower a metric's status |
| Canary.CriticalValueIsFamilyWise | src/causure/canary.py:1218-1219 | the critical value is the quantile at the p whose error 4 * metrics * looks * (1 - p) is that of the confidence, and there is one such p |
| Canary.LargerPlanOnlyBlurs | src/causure/canary.py:1218-1250 | of two policies with the same confidence, the one that plans as many or more looks and metrics keeps a status or makes it inconclusive, never flips it |
| Canary.HigherMirrorsLower | src/causure/canary.py:1235-1250 | a HIGHER metric is decided as the LOWER metric on the complementary counts |
| Canary.CompareIsExact | src/causure/canary.py:1363-1532 | a comparison is made iff look, times and metrics fit the policy; promote, rollback and continue iff the design is ready and the plausible rates of every, some or not every metric say so at the family-wise critical value |
| Canary.ResultsAreReported | src/causure/canary.py:1208-1266 | every metric result has the rates, the difference, the ends of the region of plausible differences, and the status, of its own counts |
| Canary.ChecksAreExact | src/causure/canary.py:1448-1583 | the six checks, and what a comparison copies from policy and observation |
| Canary.BetterCandidateNeverLowersDecision | src/causure/canary.py:1435-1532 | with the same design, a no worse candidate never lowers the decision |
| Canary.PlanEnds | src/causure/canary.py:1519-1528 | a sequential plan has at most the planned number of looks, and one that uses them all does not end in continue |
| Canary.ParseResult | src/causure/canary.py:876-1160 | the strict result parser accepts exactly the consistent results and returns them unchanged |
| Canary.RoundingsAgree | src/causure/canary.py:1188-1190 | rounding the difference and differencing the rounded rates differ by at most 1.5e-12 |
| Canary.ComparisonIsAccepted | src/causure/canary.py:1284-1583 | every comparison result satisfies the strict result parser |
| Paths.JoinSplit | src/causure/onboarding.py:448-462 | a path is its segments joined by slashes |
| Paths.SplitJoin | src/causure/onboarding.py:448-462 | and by no other slash-free segments |
| Paths.ContainedIsTheCheck | src/causure/onboarding.py:438-444 | a path has no empty, `.` or `..` segment, or is `.`, iff it is the canonical spelling of its parts and none of them is `..` |
| Paths.ContainedPathsLead | src/causure/onboarding.py:1183 | different contained paths lead to different places strictly below their base, except `.`, which leads to the base itself |
| Paths.DotIsAccepted | src/causure/github_selection.py:208-222 | every path validator accepts `.` |
| Paths.RepositoryPathIdempotent | src/causure/onboarding.py:448-462 | accepting an accepted repository path again changes nothing |
| Paths.PatternIsExact | src/causure/onboarding.py:430-462 | segment by segment, which texts are patterns: plain, contained, at most 1024 characters, each segment of literals and single stars or `**` |
| Paths.PathIsExact | src/causure/onboarding.py:430-462 | the same for paths without globs |
| Paths.FilePathIsExact | src/causure/github_selection.py:208-222 | the same for the paths of files, up to 4096 characters |
| Glob.CompilePattern | src/causure/github_selection.py:384-402 | the compiler loop emits the pieces of the recursive translation, and they mean the glob on every normalized path |
| Glob.CompilerPreservesMeaning | src/causure/github_selection.py:384-402 | the compiled expression fully matches a path iff the segment lists match |
| Selection.CollectPages | src/causure/github_selection.py:346-367 | the page loop succeeds iff every page has its announced size, and then returns all the files |
| Selection.Discover | src/causure/github_selection.py:315-381 | files are returned iff one unchanged snapshot surrounds complete pages without a repeated path; they are then sorted and as many as announced |
| Selection.DiscoveryIsExact | src/causure/github_selection.py:233-381 | when discovery succeeds, with the pages of a hundred and the limit of 500 files written out |
| Selection.SelectChange | src/causure/github_selection.py:447-487 | the matching loop computes the specified selection |
| Selection.SelectionIsExact | src/causure/github_selection.py:405-487 | nothing, one component or an ambiguity is the outcome iff governance is untouched and no, one or several components have a glob that matches a changed file; any other outcome iff governance is touched or misspelled |
| Selection.AmbiguityNamesTheHit | src/causure/github_selection.py:466-475 | an ambiguity names exactly the components hit |
| Selection.GovernanceIsExact | src/causure/github_selection.py:405-461 | which change of the configuration, or of the policy file beside it, refuses the selection, and that a selection carries that policy file |
| Selection.PolicyChangeIsRefused | src/causure/github_selection.py:456-461 | a file whose current or previous path is, up to case, the policy file in the directory of the configuration is never accepted |
| Selection.SelectionIsUnique | src/causure/github_selection.py:447-487 | a selection names the only component whose patterns match, with its sorted matched paths, and no governance path changed |
| Selection.SelectionIgnoresOrder | src/causure/github_selection.py:405-487 | the outcome does not depend on the order of the files |
| HostServer.StepKeepsInv | src/causure/openai_quota_host.py:192-260 | every step of every thread keeps the lock, run-once and close-once invariant |
| HostServer.ShutdownIsSafe | src/causure/openai_quota_host.py:192-260 | in every interleaving the listener runs at most once, each shutdown happens at most once, and a settled host has a closed quota runtime |
| HostServer.ReturnMeansSettled | src/causure/openai_quota_host.py:215-260 | whenever a close returns, the host is closed, every shutdown has been made exactly once, and a quota runtime is closed |
| HostServer.ClosedNeverReverts | src/causure/openai_quota_host.py:228-231 | over any run, closed never becomes open again |
| HostServer.SomeoneCanStep | src/causure/team_host.py:180-248 | the lifecycle lock alone never deadlocks |
| HostServer.Server.Close | src/causure/team_host.py:200-248 | every shutdown is tried whichever earlier one raised, and any failure is reported |
| HostServer.Server.Run | src/causure/team_host.py:180-198 | run is refused when closed or already run, and otherwise ends with a close |
| HostServer.CloseIsTheSteps | src/causure/team_host.py:200-248 | the object's close is what an undisturbed thread of the step system does, whether the host is open or closed |
| HostServer.RunIsTheSteps | src/causure/team_host.py:180-198 | and so is its run, refused runs included |
| HostServer.CallsKeepUsedOnce | src/causure/team_host.py:180-248 | over the calls on one object nothing is made twice: a second close does nothing, and a run is refused iff the host is closed |
| ServiceShutdown.ServiceStepKeepsInv | src/causure/team_windows_service_entry.py:51-104 | every step of SvcDoRun and of every SvcStop keeps the invariant of flag, locks, controller and host |
| ServiceShutdown.StopIsNeverLost | src/causure/team_windows_service_entry.py:51-90 | once SvcStop has left its critical section, the host is closed, or was never run and will not be |
| ServiceShutdown.EarlyStopNeverRuns | src/causure/team_windows_service_entry.py:78-85 | a stop requested before the flag is read means that the listener never runs |
| ServiceShutdown.EndedIsClosed | src/causure/team_windows_service_entry.py:88-104 | when SvcDoRun ends, a created controller is closed with every shutdown made once, and a recorded control failure is reported |
| ServiceShutdown.LateStopReportsFailure | src/causure/team_windows_service_entry.py:78-104 | a stop between the reading of the flag and the claim of run makes the service end as failed, whatever else happens |
| ServiceShutdown.FailureIsExact | src/causure/team_windows_service_entry.py:51-104 | over every run the service ends as failed iff some stop was that late, or creation, the listener (but for the expected error of a closed one) or a shutdown step raised |
| ServiceShutdown.OnlyLateStopsFail | src/causure/team_host.py:180-198 | when nothing raises but, if anything, a closed listener with the expected error, the service ends as failed iff some stop was late |
| ServiceShutdown.LateStopHappens | src/causure/team_windows_service_entry.py:51-104 | for every host, a run in which nothing raises, one stop is late and the service ends as failed |
| ServiceShutdown.NoDeadlock | src/causure/team_windows_service_entry.py:51-104 | the order of the controller lock and the lifecycle lock admits no deadlock |
| ServiceShutdown.QuietMeansListening | src/causure/team_windows_service_entry.py:51-104 | after a stop nothing is stuck except a listener whose refusal to close has been recorded |
| ServiceShutdown.RunsAreFinite | src/causure/team_windows_service_entry.py:51-104 | every run of SvcDoRun and n stops makes at most 40 + 12 n steps |
| Collector.RedactionCounts.FilterAttributes | src/causure/collector.py:258-298 | the loop computes the retained attributes and advances the three counters by what it retained, redacted and dropped |
| Collector.EveryAttributeIsCounted | src/causure/collector.py:258-298 | retained, redacted and dropped add up to all attributes, and retained keys and values are allow-listed |
| Collector.RetainedIffAllowed | src/causure/collector.py:276-297 | an attribute is kept iff its normal value is one the manifest parser allows under its key; dropped iff neither allow-listed nor sensitive |
| Collector.FilteredMeans | src/causure/collector.py:265-298 | filtering accepts exactly valid, distinct keys and decides attribute by attribute |
| Collector.FilteredPermutes | src/causure/collector.py:258-298 | the order of a span's attributes does not matter |
| Collector.CollectSpan | src/causure/collector.py:301-360 | the record of a span, or its first error, and the counters |
| Collector.Collect | src/causure/collector.py:411-489 | the three nested loops and the sort compute the specified manifest |
| Collector.GatheredMeans | src/causure/collector.py:437-459 | spans are gathered exactly when all are good, distinct and within the limit |
| Collector.CollectionConserves | src/causure/collector.py:437-489 | retained + redacted + dropped is the number of attributes in all spans, retained is what the manifest holds, and all of it is allow-listed |
| Collector.CollectionIgnoresOrder | src/causure/collector.py:415-489 | for a fixed source the manifest depends only on the set of spans, not on grouping, span order or attribute order |
| SpanRecords.CollectionIsExact | src/causure/collector.py:301-489 | which exports are collected: every span admissible by identifiers, times, enumerations and attribute keys, none repeated, within the limit |
| SpanRecords.ManifestRecordsSpans | src/causure/collector.py:301-489 | the manifest holds for each raw span the record of its own hashes, parent, times, kind, status and allowed attributes, sorted, and counts traces and what was redacted and dropped |
| Manifest.CollectedSpanParses | src/causure/trace_manifest.py:245-344 | a collected span passes every check of the parser except, possibly, the one on its own parent |
| Manifest.CollectedManifestParses | src/causure/trace_manifest.py:347-408 | a collected manifest parses to itself iff no span names itself as its parent |
| Manifest.SelfParentIsCollectedThenRefused | src/causure/trace_manifest.py:279-285 | an export for which it does not |
| StrictParsers.ManifestAcceptedExactly | src/causure/trace_manifest.py:245-408 | the manifests the parser accepts, over their spans: well formed, bound to the source, with different span hashes and totals that fit; they are returned unchanged |
| Grouping.GroupsPartition | src/causure/fixtures.py:705-707 | groups by key hold every element exactly once |
| Fixture.Grouped | src/causure/fixtures.py:705-707 | the grouping loop fills one list per trace, in order |
| Fixture.Generate | src/causure/fixtures.py:668-733 | generation computes the specified fixture |
| Fixture.ParseNamedCounts | src/causure/fixtures.py:253-282 | the count parser accepts exactly sorted, unique, fitting counts |
| Fixture.ClusterParses | src/causure/fixtures.py:323-481 | a generated cluster passes every check except, possibly, the identifier limit |
| Fixture.GeneratedFixtureParses | src/causure/fixtures.py:484-582 | a generated fixture parses to itself iff no trace of the manifest carries more than 10,000 distinct models, or providers |
| Fixture.ManyModelsAreRefused | src/causure/fixtures.py:314-321 | a family of accepted manifests of n spans whose fixtures are generated, and refused iff n exceeds the limit |
| Fixture.ClustersPartitionSpans | src/causure/fixtures.py:611-665 | the clusters name every span reference exactly as often as the manifest, each those of its own trace |
| Fixture.WindowIsTight | src/causure/fixtures.py:616-627 | the observation window reaches from the earliest start to the latest end |
| Fixture.IdentifiersAreCarried | src/causure/fixtures.py:635-645 | the identifiers of a cluster are exactly the texts its spans carry under the model, or provider, keys |
| Fixture.KindsAddUp | src/causure/fixtures.py:629-633 | the kind counts add up to the spans that have a kind |
| FixtureReport.GenerationIsExact | src/causure/fixtures.py:668-733 | a fixture is generated iff the identifier is safe, the manifest parses and its traces are within the limit |
| FixtureReport.FixtureReportsManifest | src/causure/fixtures.py:611-733 | one cluster for each trace in the order of hashes, reporting over the manifest's own spans: how many, roots, errors, statuses, kinds, the window, models, providers and references |
| StrictParsers.FixtureAcceptedExactly | src/causure/fixtures.py:253-582 | the fixtures the parser accepts, cluster by cluster and count by count; they are returned unchanged |
| Engine.ReviewCase | src/causure/engine.py:72-596 | the checks, appended one by one, give the specified findings and decision |
| Engine.ApprovalIsExact | src/causure/engine.py:34-596 | approval holds exactly when every listed condition on the evidence holds |
| Engine.DecisionIsExact | src/causure/engine.py:34-596 | the decision in terms of the evidence alone: doubtful requirement, contradicting evidence, missing evidence, metrics, in this order |
| GateEvidence.ApprovalMeasuresEvidence | src/causure/engine.py:23-596 | approval over the raw evidence, without the gate's own rates, ratios, margins and rounding: counts and costs that meet every bound by 5e-7 are approved, and none that miss one by more |
| GateEvidence.UnitsDoNotMatter | src/causure/engine.py:26-31 | measuring cost or latency in other units never changes a review |
| GateEvidence.MetricsAreRelative | src/causure/engine.py:510-596 | a metric finding is raised when cost or latency rises beyond the allowed share of the baseline, is missing, or has no positive baseline, with the rounding stated |
| GateEvidence.FindingsNameTheirChecks | src/causure/engine.py:34-596 | every finding has a consequence, and has not passed, iff the check its code stands for is not met, and every check that is not met is reported |
| Engine.LooserPolicyKeepsApproval | src/causure/policy.py:14-38 | a case approved under a stricter policy is approved under every looser one |
| Engine.ImprovementKeepsApproval | src/causure/engine.py:149-508 | passing a failed trial or candidate result, or adding a passing trial or eligible control anywhere, never loses approval |
| Engine.ApprovalIgnoresOrder | src/causure/engine.py:182-505 | with a positive margin, approval does not depend on the order of trials, hypotheses or controls |
| Engine.FindingsAreOrdered | src/causure/engine.py:72-596 | at most fifteen findings, with distinct codes |
| GateLimits.LooserKeepsDecision | src/causure/engine.py:34-596 | the positive half for every case, parsed or not: a decision is kept or raised |
| GateLimits.LooserPolicyKeepsDecisionsExactly | src/causure/policy.py:76-135 | for parsed policies, a looser one keeps or raises the decision of every parsed case iff no relaxed minimum lets a rate fail and blocking is not added |
| GateLimits.UntiedDecisionIgnoresOrder | src/causure/engine.py:182-505 | without a tie for the lead no decision depends on the order of trials, hypotheses or controls |
| GateLimits.DecisionIgnoresOrderExactly | src/causure/engine.py:34-596 | under any policy the decision of a parsed case is independent of order iff there is no tie for the lead, the requirement is doubtful, other evidence contradicts, or every tied leader does |
| GateLimits.SomeDecisionDependsOnOrder | src/causure/engine.py:182-252 | under every parsed policy two orders of the same evidence get different decisions |
| GateLimits.OrderFreeApprovalNeedsMargin | src/causure/engine.py:182-252 | for every parsed policy, approval is independent of order for all parsed cases iff the margin asked for is positive |
| CaseView.ParsedCasesAreAccepted | src/causure/models.py:395-757 | the parsed cases of these theorems are exactly what the gate reads of the documents that the case parser accepts |
| CaseEvidence.GateReadsDocument | src/causure/models.py:395-757 | what the gate reviews of an accepted document is what the document says, key by key: requirement, oracle, trials, hypotheses, interventions, controls, surfaces and metrics |
| CaseEvidence.CaseIdIsExact | src/causure/models.py:702-757 | which texts are case identifiers |
| CheckRun.CreateRequest | src/causure/github_checks.py:832-896 | the filter loop and the plan's own checks compute the specified request |
| CheckRun.FilterKeepsDecision | src/causure/github_checks.py:549-559 | dropping findings without consequence keeps the decision |
| CheckRun.DecisionIsWorst | src/causure/github_checks.py:549-559 | the recomputed decision is that of the weightiest consequence, or approve |
| CheckRun.RequestIsExact | src/causure/github_checks.py:589-637 | a plan is accepted iff decision, action and conclusion follow from its findings, at most fifty, each affecting and with its own code |
| CheckRun.PlansAreReproducible | src/causure/github_checks.py:562-637 | a plan exists exactly for reviews whose decision is that of their weightiest finding, whose action follows, and whose at most fifty affecting findings have different codes; it holds exactly those |
| CheckRun.EngineReviewIsPlanned | src/causure/github_checks.py:758-896 | every review of the engine becomes a plan with the same decision; success iff approved, or conditional and allowed |
| Approval.ParseKeys | src/causure/approvals.py:708-822 | the trust-store loop accepts exactly ordered validity windows with unique key identifiers |
| Approval.ApprovalWindow | src/causure/approvals.py:632-654 | created <= verified <= authenticated <= issued < expires, checked before expiry, and less than 173,100 seconds after review |
| Approval.WindowIsReached | src/causure/approvals.py:1080-1109 | the bound is the best possible in whole seconds |
| Approval.ApprovalScope | src/causure/approvals.py:1054-1136 | an approval stands on an approve decision, an exception on another and on exactly the findings of the result that have a consequence |
| Approval.ApprovalBindsArtifacts | src/causure/approvals.py:1426-1468 | without digest collisions one assertion is accepted with at most one publication, receipt, result and report |
| Approval.AcceptedIsNotRevoked | src/causure/approvals.py:1402-1424 | no entry of a fresh enough revocation list revokes an accepted approval |
| Approval.VerifiedMeans | src/causure/approvals.py:1262-1490 | whenever the verifier accepts: less than 173,100 seconds after review, action fits decision, and a store key that may give the approval signed it, was valid throughout and is not revoked |
| ApprovalRules.VerifyIsExact | src/causure/approvals.py:1262-1490 | an approval is accepted iff it decodes, a trusted key of the named list signed it, its times and the check fit to the second, nothing revokes it, and it names these files, which form one chain that belongs to the request and whose decision it covers |
| ApprovalRules.ChainIsExact | src/causure/approvals.py:1054-1109 | the chain of publication, receipt and result over their decoded fields |
| Approval.VerificationIgnoresOrder | src/causure/approvals.py:1331-1424 | the order of keys and revocations never decides |
| Approval.AssertionIsIssuedExactly | src/causure/approvals.py:1139-1259 | an approval is issued over a valid chain iff its times are in order and it approves an approve decision, or excepts another by naming every affecting finding once, at most 64 and well spelled |
| Approval.IssuedApprovalVerifies | src/causure/approvals.py:1262-1468 | an issued approval is accepted iff a trusted, unrevoked key serves its terms at the time of the check and build, target and report are those of the publication |
| Approval.PublicationIsExact | src/causure/azure_devops.py:1344-1434 | which publications are created, over the decoded review, report, target and times |
| Approval.PublicationIsVerified | src/causure/azure_devops.py:1344-1530 | a created publication is verified iff within its maximum age and for its own target and build; the receipt then chains with the artifacts |
| GateChain.EngineCodesAreExceptable | src/causure/approvals.py:1054-1136 | for every review of the gate the affecting codes are none iff it approves, and otherwise an acceptable exception of 1 to 15 codes, those of its Check Run plan |
| GateChain.EngineReviewIsIssuedExactly | src/causure/approvals.py:1139-1259 | for every review of the gate, approve can be issued iff the case is approvable, and otherwise an exception iff it names each finding of the plan once; no review is beyond both |
| ProjectFile.DerivedIdIsValid | src/causure/onboarding.py:423-427 | a valid identifier can be derived from every directory name |
| ProjectName.DerivedIdIsItsWords | src/causure/onboarding.py:423-427 | the derived identifier is the words of the name with single hyphens between them, cut to 64 characters without a hyphen at the end |
| ProjectFile.ParseAdapters | src/causure/onboarding.py:487-533 | the loop with its seen identifiers computes the specified adapters |
| ProjectFile.ParseComponents | src/causure/onboarding.py:536-628 | the loop with its three seen sets computes the specified components |
| ProjectFile.ParsedProjectIsValid | src/causure/onboarding.py:631-700 | everything the parser accepts, in any version, is valid: unique identifiers, case files and patterns, resolved generators |
| ProjectFile.CaseFilesLieApart | src/causure/onboarding.py:605-611 | the case files of a valid configuration lie at different places below the root, or at the root itself for `.` |
| ProjectFile.DotIsACaseFile | src/causure/onboarding.py:605 | wherever a component is accepted, it is also accepted with `.` as its case file |
| ProjectFile.PrintedProjectParses | src/causure/onboarding.py:703-732 | a configuration in normal form prints to a document that parses back to it iff it is valid, and is refused otherwise |
| ProjectFile.ParsingUndoesPrinting | src/causure/onboarding.py:703-732 | the printed form of every accepted document, of any version, parses to the same configuration |
| ProjectUpgrade.PreviousParsesAsUpgraded | src/causure/onboarding.py:656-680 | a 2.0 document parses exactly as the 3.0 document with the same fields and no case generators, acceptance included |
| ProjectUpgrade.LegacyParsesAsExtended | src/causure/onboarding.py:636-680 | a 1.0 document parses exactly as the 3.0 document with no adapters, no components and 30 days |
| ProjectUpgrade.PrintingUndoesParsing | src/causure/onboarding.py:631-732 | an accepted 3.0 document prints as itself, stripped: nothing of it is lost |
| ProjectStore.Store.ConfigureGithubComponent | src/causure/onboarding.py:817-882 | the stored document becomes the validated one, or stays as it was |
| ProjectStore.Store.ConfigureTrustedAdapter | src/causure/onboarding.py:901-999 | the same for an adapter and its optional binding |
| ProjectStore.RegistrationIsExact | src/causure/onboarding.py:874-876 | a registration writes exactly the requested configuration, iff that is valid as a whole |
| ProjectStore.ComponentAcceptedExactly | src/causure/onboarding.py:817-882 | a component is accepted iff it is well formed, nothing of it is taken and there is room |
| ProjectStore.AdapterAcceptedExactly | src/causure/onboarding.py:901-999 | an adapter is accepted iff its identifier is new, kind and entry point are well formed, a binding is of a case generator to a component without one, and there is room |
| ProjectStore.ComponentJoins | src/causure/onboarding.py:852-882 | an accepted component joins the others at the end with the stripped texts of the call; all else stays, but for a given retention |
| ProjectStore.AdapterJoins | src/causure/onboarding.py:930-999 | an accepted adapter joins the others at the end, and exactly the component it is bound to gets it as its generator |
| ProjectStore.RunsKeepProjectsValid | src/causure/onboarding.py:817-999 | over every run of registrations the configuration stays valid, and existing components change only by gaining a generator once |
| ProjectStore.InitialProjectParses | src/causure/onboarding.py:735-774 | the configuration of a new project parses back, whatever its directory is called |
| ProjectStore.RunsFromInitialStayValid | src/causure/onboarding.py:735-999 | from a new project on, every run of registrations stays valid and keeps identifier and directories |
| CaseDocument.IssueList.ParseItems | src/causure/models.py:436-462 | the loops over a section's items return all values and append all issues |
| CaseDocument.IssueList.ParseStrings | src/causure/models.py:280-295 | the string-list parser and the issues it appends |
| CaseDocument.ParsedCaseIsClean | src/causure/models.py:702-757 | a document without issues gives a case in normal form |
| CaseDocument.PrintedCase | src/causure/models.py:760-780 | the JSON form of a case in normal form parses without issues to that case |
| CaseDocument.CaseRoundTrip | src/causure/models.py:702-780 | parsing the JSON form of an accepted case returns the same case |
| CaseDocument.DigestIdentifiesCase | src/causure/models.py:783-793 | accepted documents share a digest exactly when they parse equal, short of collisions |

## Left out

- Floating point: rates, intervals, ratios and confidences are exact reals; the square root and the normal quantile are parameters with the properties they are used for, and rounding is decimal, ties to even.
- SHA-256, Ed25519, base64url, `str.casefold`, `str.upper` and the regular-expression engine's own parsing: library calls, given as parameters or as the meaning of the compiled expression. Digest collisions are excluded by hypothesis where a property needs it, and so is a private key that does not answer to its public key.
- Decoding of JSON text, timestamps and decimal strings: documents are trees or records, times are whole seconds (`reviewed_at` a real), span times are numbers.
- Numbers that are not finite and text that is not valid Unicode: reals and characters here always are.
- Messages, paths and details of errors and findings: an error is the branch it came from; all missing keys of a change-case object count as one issue, and so do all unknown ones.
- Field-by-field string, length, media-type and version checks of the closed parsers, where no property above uses them: canary policy and observation parsing are given by what they guarantee, the work items of a publication, and the document bindings of `compare_canary_outcomes` (digests, case identity, reviewed decision) are not modelled.
- Glob.CompilerPreservesMeaning: the anchors and `re.escape` are taken as given, and paths contain no newline because the path validators refuse control characters.
- HostServer.ShutdownIsSafe: a step is one lock operation or one library call; re-entry of the lock by a signal handler and the 0.1 to 30 second timeouts are not modelled.
- ServiceShutdown.QuietMeansListening: that a closed listener's run returns is outside the model, and so is reporting to the service control manager and logging.
- Collector.CollectionIgnoresOrder: an accepted document is characterised in full; which of several errors a refused document reports does depend on order.
- Fixture.GeneratedFixtureParses: the constant fields of a fixture (version, draft flags, missing evidence) are not modelled.
- The text of the review report: whether it fits a review is a parameter of the approval chain.
- `attestations.py` and `github_review.py`: near copies of the approval and publication logic.
- The command line, reports, demo, doctor, file, network, subprocess and environment access: inputs and outputs of the modelled functions.
