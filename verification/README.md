# AIRI: a verified model

AIRI turns a metric definition into governed SQL: a candidate is generated, reviewed, evaluated on
labelled data, refined, packaged for production, deployed, monitored and reconciled. This project
models the parts of that pipeline whose correctness is not visible in one function, and proves what
they promise. `dafny verify dfyconfig.toml` checks the whole project.

## The system, module by module

**Statistics** (`Evaluation`, `Calculator`, `BinningLaws`, `KsLaws`, `IvLaws`, `QuantileLaws`,
`ThresholdLaws`, `ReportLaws`, `UnitsLaws`). `Evaluation` says as functions what one report contains;
`Calculator` holds the loops that compute it; the laws say what the report means on the raw rows:
that a percentile stands that far along the sorted values, that binning is an exact ordered partition, that the KS value is the separation its own split
achieves and that no threshold does better unless it splits a bin, that the information value measures the difference of two
share vectors, that candidates count what their rules select, that row order is irrelevant, that
exchanging the labels only turns the direction around, and that a change of units only converts the
values. `EvaluationDataset` is the join that feeds the calculator, `RelationFixture` the synthetic
two-hop data set with its documented closed form, `FixtureEvaluation` the two together.

**Protocols** (`Approvals`, `ApprovalLaws`, `ApprovalService`; `Refinement`, `RefinementLaws`,
`RefinementExecution`, `RefinementRuns`, `RefinementService`, `RefinementTransform`). Every operation of the two services is
cut into its database statements, and any number of sessions run them in any order, with stale reads,
aborts and edits of stored documents in between. A state is what a run of such steps from the empty
store leaves; the invariants hold in all of them. The service classes run one operation at a time on
their own fields and are proved to have exactly the effect of their statements.

**Production** (`Packaging`, `PackageLaws`; `Convergence`, `ConvergenceLaws`,
`ReconciliationService`; `Verification`, `Gate`, `GateLaws`). A package is built from registry
lineage and verified again before use; a planner compares desired, registry and runtime version and a
recovery changes them; a report is put in front of every production action. Hashes are function
parameters, assumed injective only where a law says so.

**Monitoring and documents** (`Histograms`, `Findings`, `Expectations`, `ExpectationService`;
`CanonicalJson`, `ClientJson`, `JsonText`). Distributions, findings and their merge, expectation
windows and the alerts they raise over whole runs; the canonical form on which every hash rests, the
web client's version of it, and the text of either that is hashed.

`Options`, `Numerals`, `Sorting` and `Documents` hold what several modules share.

## Where the code differs from its documentation, or needs a condition

- `src/airi/infrastructure/relation_fixture.py:8-24` gives a closed form for N enterprises; it needs
  none or at least five (`ClosedFormExactly`). Presence in the result is as documented for every N but
  one, and the isolated enterprise's identifier is the one generated for enterprise 9000, so its absence
  needs fewer than 9000 (`QueryMeetsContract`).
- `src/airi/infrastructure/relation_fixture.py:116-118` says that no configuration can produce a
  perfect separation of the labels; that holds for four and for eight or more enterprises
  (`FixtureSeparatesExactly`).
- `airi-web/src/utils/canonicalHash.ts:1-11` calls the client's hash byte-identical to the backend's.
  Python sorts keys by code point, JavaScript by UTF-16 code unit, and its objects list array indices
  first in numeric order; the two agree exactly on documents without a pair of keys that these orders
  tell apart (`ClientAgreesExactly`, `ClientHashAgreesExactly`, `IndexKeysDisagree`), in particular on
  those of metric definitions (`PlainKeysAgree`). Dafny compares characters by code point, as Python does.
- `src/airi/refinement/service.py:331-368` checks the stored candidate before its compare-and-set and not
  again after it, so an edited document can enter evaluation (`EntersTransformExactly`); it is never
  executed, because each execution verifies what it reads (`ExecutesOnlyTheTransform`,
  `EditedDocumentIsRefused`).
- `src/airi/production/convergence.py:274-278` calls the registry's version "the version this
  deployment holds a package for"; with a desired version the offer only compares registry and target,
  and execution deploys the deployment's own package (`RegistryToRuntimeConvergesExactly`,
  `PushCanLoop`).
- `src/airi/production/service.py:3151-3156` says a decision for the runtime re-establishes the target;
  when registry and runtime already agree it is taken as satisfied and the target is not touched, and
  with an empty registry pointer the move is kept although it is reported as failed
  (`RuntimeToRegistryConvergesExactly`).
- `src/airi/refinement/service.py:107-121` appends to a proposal's history under a compare-and-set that
  compares the verdict only; two verdict changes in between go unnoticed and their entries are lost
  (`HistoryCanBeLost`, `HistoryKeptExactly`).
- `src/airi/production/monitoring.py:40` accepts any bin count; the distribution model takes at most 64
  bins, one of them for NULL (`AcceptedExactly`).
- `src/airi/experiments/validation.py:22-23` sorts by one field; the checksum ignores row order only if
  rows with equal keys are equal (`ChecksumIgnoresOrderExactly`).

## Model

| member | source | states |
|---|---|---|
| `Calculator.Calculate` | src/airi/evaluation/calculator.py:33-213 | the loops of the calculator, run in the source's order, assemble exactly the report `Evaluate` describes, for every population, policy and logarithm |
| `Calculator.GroupRows` | src/airi/evaluation/calculator.py:68-71 | grouping by `bisect_right` files every row that has a value under its bucket, in row order, and creates no empty bucket |
| `Calculator.OrderGroups` | src/airi/evaluation/calculator.py:72-74 | the groups come in ascending bucket order, the rows without a value last and only if there are any |
| `Calculator.BuildBins` | src/airi/evaluation/calculator.py:73-90 | the bin loop numbers the groups in order and takes bounds, class counts, rate and lift from each group |
| `Calculator.SmoothBins` | src/airi/evaluation/calculator.py:91-112 | the information-value loop fills every bin's shares, weight and component and adds the components up |
| `Calculator.ScanKs` | src/airi/evaluation/calculator.py:113-157 | the cumulative scan with its first-maximum choice of bin, its direction and its split is the specified KS result |
| `Calculator.FileSources` | src/airi/evaluation/calculator.py:161-166 | the `sources` dictionary has one entry per distinct threshold, holding its origins in request order with the KS split last |
| `Calculator.MeasureThreshold` | src/airi/evaluation/calculator.py:168-189 | the hit list of one threshold yields the candidate whose counts `ThresholdLaws.MeasureCounts` explains |
| `Calculator.MeasureCandidates` | src/airi/evaluation/calculator.py:160-190 | walking the filed thresholds in ascending order yields the specified candidates, none without a direction |
| `Calculator.BinPopulation` | src/airi/evaluation/calculator.py:63-112 | bins and information value together are the specified ones, the latter absent exactly when a class is empty |
| `BinningLaws.BoundariesIncrease` | src/airi/evaluation/calculator.py:63-67 | boundaries are strictly increasing and fewer than the requested bins |
| `BinningLaws.BisectSplits` | src/airi/evaluation/calculator.py:68-71 | the computed bucket index splits sorted boundaries into those at most the value and those above it |
| `BinningLaws.BucketIsInterval` | src/airi/evaluation/calculator.py:68-83 | a row falls into an occupied bucket exactly when its value lies between that bucket's smallest and largest value, so equal values are never split |
| `BinningLaws.BinsPartitionRows` | src/airi/evaluation/calculator.py:63-90 | the bins of any population are disjoint ascending intervals that count exactly the rows inside them and miss none, at most as many as requested, numbered in order, with one NULL bin last; class counts add up to the totals |
| `BinningLaws.BinsConserveClasses` | src/airi/evaluation/calculator.py:73-90 | good and bad counts summed over all bins, NULL included, are the counts of the population |
| `BinningLaws.CumulativeAtMost` | src/airi/evaluation/calculator.py:124-130 | the running class count after a bin is the number of rows at most that bin's upper bound |
| `BinningLaws.LiftsAverageToOne` | src/airi/evaluation/calculator.py:25-30 | the count-weighted mean of the bin lifts is one whenever some row is bad |
| `KsLaws.KsRealisedOnRows` | src/airi/evaluation/calculator.py:113-157 | KS is available exactly when both classes have a row with a value, lies in [0, 1], has no split exactly when no direction is determined, is the separation its split achieves on the raw rows, and no bin edge in either direction separates them by more |
| `KsLaws.KsBoundsAllThresholds` | src/airi/evaluation/calculator.py:113-157 | no threshold at all, on a bin edge or not, separates the rows by more than the reported KS unless it splits a bin, so the reported value is the best possible one when every bin holds a single value |
| `KsLaws.KsBucketClosesAtSplit` | src/airi/evaluation/calculator.py:133-157 | the reported bucket is the first whose upper bound separates by the KS value, and the split is the next bin's lower bound, or that bound itself when low values are riskier |
| `KsLaws.GapIsSeparation` | src/airi/evaluation/calculator.py:124-131 | the signed gap after a bin is what the threshold rules at its edges separate on the rows |
| `KsLaws.KsIsOneIffSeparable` | src/airi/evaluation/calculator.py:113-157 | KS is 1 exactly when some bin edge classifies every row with a value correctly |
| `KsLaws.DescendingScanAgrees` | src/airi/evaluation/calculator.py:131-136 | scanning the same bins from the top gives the same availability and KS value, as the comment claims |
| `IvLaws.IvMeasuresDivergence` | src/airi/evaluation/calculator.py:91-112 | smoothed shares are positive and sum to one per class over all bins, components are nonnegative, and the information value is zero exactly when the two share vectors coincide, from the sign law of the logarithm alone |
| `IvLaws.WeightsFavourGood` | src/airi/evaluation/calculator.py:96-111 | each share is its own class count raised by epsilon out of the class total raised alike, the weight of evidence is the logarithm of the ratio of the two shares, positive exactly when the good one is larger, and the component is their difference times the weight |
| `IvLaws.ComponentSign` | src/airi/evaluation/calculator.py:99-101 | a component is nonnegative and zero only for equal shares |
| `ThresholdLaws.QuantileMonotone` | src/airi/evaluation/calculator.py:16-22 | on sorted values the quantile grows with the percentile and stays within the extremes |
| `QuantileLaws.QuantileCuts` | src/airi/evaluation/calculator.py:16-22 | for the last rank `k` that the percentile reaches on the sorted values (`100*k <= (n-1)*p < 100*(k+1)`), the values up to it are at most the quantile and those after it at least |
| `QuantileLaws.QuantileAtRank` | src/airi/evaluation/calculator.py:16-22 | for that rank the quantile is `values[k]` if `100*k == (n-1)*p`, and otherwise the point that divides the gap to the next value in the ratio of `(n-1)*p - 100*k` to 100 |
| `QuantileLaws.QuantileStands` | src/airi/evaluation/calculator.py:16-22 | one number and no other stands `p` hundredths of the way along the values in this sense, and it is the quantile |
| `QuantileLaws.BoundariesAreQuantiles` | src/airi/evaluation/calculator.py:64-68 | the boundaries are exactly the numbers that stand 1, 2, ... of `bins` equal parts of the way along the values |
| `QuantileLaws.DistributionMeasured` | src/airi/evaluation/calculator.py:40-62 | on the sorted values themselves: their number, the first, the last, a mean that times their number is their sum, and p25 to p99 what stands 25, 50, 75, 90, 95 and 99 hundredths of the way along them |
| `QuantileLaws.QuantileMirrors` | src/airi/evaluation/calculator.py:16-22 | negating the values and taking the complementary percentile negates the quantile: the interpolation favours neither end |
| `QuantileLaws.DistributionOrdered` | src/airi/evaluation/calculator.py:55-62 | null and non-null rows are all rows; without values nothing is reported, and with them minimum, the six percentiles and maximum ascend with the mean between the extremes |
| `ThresholdLaws.CandidatesFollowRows` | src/airi/evaluation/calculator.py:160-190 | candidates ascend strictly, each is hit by some row, counts, rates, recall and lift are those of the raw rows, hits and bad hits move one way along the list, and each requested percentile and the KS split is named by exactly the candidate at its value |
| `ThresholdLaws.MeasureCounts` | src/airi/evaluation/calculator.py:168-189 | a measured candidate counts exactly the rows that its rule selects, class by class |
| `ThresholdLaws.HitsMonotone` | src/airi/evaluation/calculator.py:168-175 | hits shrink as an at-least threshold grows and grow with an at-most one |
| `ThresholdLaws.SplitIsValue` | src/airi/evaluation/calculator.py:145-152 | a determined split is the value of some row |
| `ReportLaws.ReportIgnoresOrder` | src/airi/evaluation/calculator.py:40-213 | the whole report depends on the rows only as a multiset |
| `ReportLaws.ReportFollowsRows` | src/airi/evaluation/calculator.py:40-213 | every count is counted on the rows, coverage and bad rate times the number of rows give the counts, the information value is there exactly if both classes occur, and each warning is listed exactly under its own condition on the rows |
| `ReportLaws.ExchangeTurnsDirection` | src/airi/evaluation/calculator.py:40-157 | exchanging good and bad labels keeps KS availability, value and bucket and the information value, and turns the direction around, from the reciprocal law of the logarithm |
| `UnitsLaws.ReportFollowsUnits` | src/airi/evaluation/calculator.py:16-213 | rescaling and shifting all values converts every value in the report and changes no count, rate, lift, KS value, bucket, direction, information value or warning |
| `UnitsLaws.QuantileIn` | src/airi/evaluation/calculator.py:16-22 | the quantile of converted values is the converted quantile |
| `UnitsLaws.BoundariesIn` | src/airi/evaluation/calculator.py:63-67 | bin boundaries of converted values are the converted boundaries |
| `EvaluationDataset.ChecksumIgnoresOrderExactly` | src/airi/experiments/validation.py:22-23 | with an injective hash the checksum is blind to row order if and only if rows with equal entity keys are equal |
| `EvaluationDataset.JoinConserves` | src/airi/experiments/validation.py:26-74 | matched and label-only entities are the labels, matched and metric-only ones the metric rows, labels and excluded rows the snapshot, with one output row per label, and the calculator's coverage of the output is the non-null count over the label count |
| `EvaluationDataset.BuildDataset` | src/airi/experiments/validation.py:26-74 | on the raw records: it succeeds exactly on the declared snapshot with well-formed rows of different entities, usable labels and sound metric rows; then there is one row per labelled record, in snapshot order, bad exactly if the label is the bad value, with the number of the metric row of that entity or none, and an entity is matched exactly if it has a metric row; otherwise the first fault is named |
| `EvaluationDataset.ScanDataset` | src/airi/experiments/validation.py:26-50 | the snapshot loop stops at the first unreadable, duplicated or mislabelled row and otherwise collects exactly the known labels |
| `EvaluationDataset.ScanMetrics` | src/airi/experiments/validation.py:51-60 | the metric loop stops at the first invalid or duplicated row and otherwise collects every metric value |
| `RelationFixture.IdentifiersDistinct` | src/airi/infrastructure/relation_fixture.py:41-50 | enterprise, person and hub identifiers are injective, and persons never collide with hub persons |
| `RelationFixture.RelationTables` | src/airi/infrastructure/relation_fixture.py:56-108 | the generator loop produces the specified base and joined rows for any number of enterprises |
| `RelationFixture.RelationRows` | src/airi/infrastructure/relation_fixture.py:70-104 | one pass contributes exactly the rows of its enterprise, hub, self-loop and duplicate rows included |
| `RelationFixture.CountExactly` | src/airi/infrastructure/relation_fixture.py:17-24 | joining the tables, dropping self relations and counting distinct targets gives every enterprise its documented number, or one less than the number of enterprises where that is not larger |
| `RelationFixture.ClosedFormExactly` | src/airi/infrastructure/relation_fixture.py:8-24 | the documented counts hold for every enterprise if and only if there are none or at least five of them |
| `RelationFixture.CountFallsShort` | src/airi/infrastructure/relation_fixture.py:8-24 | with one to four enterprises the last one wraps around to itself and falls short of its documented number |
| `RelationFixture.QueryMeetsContract` | src/airi/infrastructure/relation_fixture.py:17-24 | for any number of enterprises the query has a row, with the number reached, exactly for those that reach another one, and for no other identifier; presence is as documented if and only if there is not exactly one enterprise, the numbers are if and only if there are at most one or at least five, and the isolated enterprise stays absent if and only if fewer than 9000 are generated |
| `RelationFixture.LabeledRows` | src/airi/infrastructure/relation_fixture.py:111-138 | the label loop produces one row per enterprise and the isolated one |
| `FixtureEvaluation.FixtureSeparatesExactly` | src/airi/infrastructure/relation_fixture.py:111-138 | some threshold classifies the labelled fixture perfectly if and only if it has at most three, or five to seven, enterprises |
| `FixtureEvaluation.FixtureKsBelowOne` | src/airi/infrastructure/relation_fixture.py:111-138 | under every policy the calculator reports a KS of one only for five to seven enterprises; the shipped size meets the documented counts, leaves the isolated enterprise out and never reaches one |
| `CanonicalJson.CanonicalDecidesEquality` | src/airi/approvals/artifacts.py:12-18 | two documents have the same canonical form if and only if they are equal with objects read as maps, at every depth |
| `CanonicalJson.CanonicalIdempotent` | src/airi/approvals/artifacts.py:12-18 | canonicalizing twice changes nothing more |
| `CanonicalJson.CanonicalIsSame` | src/airi/approvals/artifacts.py:12-18 | the canonical form is a document equal to the original |
| `CanonicalJson.KeyOrderIrrelevant` | src/airi/approvals/artifacts.py:12-18 | listing the fields of an object in another order does not change the canonical form |
| `JsonText.TextUnique` | src/airi/approvals/artifacts.py:15-17 | compact JSON text is read in one way: equal texts, with anything after them that can follow a document, mean equal documents and equal rests |
| `JsonText.TextSpelled` | src/airi/approvals/artifacts.py:15-17 | an array or object is its parts with commas between them and nothing else, in brackets or braces, a field its quoted key, a colon and its value; null, booleans, numerals and quoted strings are spelled as usual |
| `JsonText.CodeSpelled` | src/airi/approvals/artifacts.py:15-17 | a character stands for itself, except that quote, backslash and five control characters are escaped by a letter and the other control characters by their number |
| `JsonText.TextDecidesEquality` | src/airi/approvals/artifacts.py:12-18 | the text that is hashed is the same for two documents if and only if they are equal with objects read as maps |
| `JsonText.HashDecidesEquality` | src/airi/approvals/artifacts.py:12-18 | two documents hash equal if and only if they are equal, unless the digest collides on their two texts |
| `ClientJson.Canonicalize` | airi-web/src/utils/canonicalHash.ts:13-25 | the recursive walk that sorts keys by UTF-16 code unit and stores them one by one computes the client's canonical form |
| `ClientJson.FillInOrder` | airi-web/src/utils/canonicalHash.ts:20-24 | the loop over the sorted keys leaves an object that lists array indices in numeric order and then the other keys as sorted |
| `ClientJson.IndexExactly` | airi-web/src/utils/canonicalHash.ts:20-24 | the keys listed first are exactly the decimal numerals of numbers below 2^32 - 1 |
| `ClientJson.UnitsExactly` | airi-web/src/utils/canonicalHash.ts:21-21 | the code units a sort compares are the character itself or the two surrogates that give it back |
| `ClientJson.ClientAgreesExactly` | airi-web/src/utils/canonicalHash.ts:1-25 | client and backend have the same canonical form if and only if no object has two keys that they list in different orders |
| `ClientJson.PlainKeysAgree` | airi-web/src/utils/canonicalHash.ts:9-11 | keys in the basic plane that are no array indices, such as those of a metric definition, are always listed in the same order |
| `ClientJson.IndexKeysDisagree` | airi-web/src/utils/canonicalHash.ts:1-25 | an object with the keys 9 and 10 is listed in different orders, whatever it holds |
| `JsonText.ClientHashAgreesExactly` | airi-web/src/utils/canonicalHash.ts:27-33 | client and backend hash a document equal if and only if no object in it has two keys that they list in different orders, unless the digest collides on the two texts |
| `ApprovalLaws.ReachableAgrees` | src/airi/approvals/service.py:33-160 | in every state that any interleaving reaches, each artifact has at most one record, drafts are exactly the artifacts without one, a record carries its artifact's identity and hashes, and an artifact is in review, approved or rejected exactly as its record says |
| `ApprovalLaws.StatusFollowsRecord` | src/airi/approvals/service.py:94-160 | in every reachable state an artifact is `approved` exactly if a record of it is approved, `rejected` exactly if one is rejected, `pending_review` exactly if one is pending, and a draft exactly if it has none |
| `ApprovalLaws.UneditedApprovalAccepted` | src/airi/approvals/service.py:33-170 | over any run in which nobody edits the artifact, `require_approved` accepts it if and only if the record is the artifact's and was approved |
| `ApprovalLaws.EditsRefused` | src/airi/approvals/service.py:56-75 | an edited snapshot that still verifies has the artifact identifier, version, workflow run, metric names and hashes of the verified one; with injective hashes it is the verified one up to the validation flag |
| `ApprovalLaws.EditsAreCaught` | src/airi/approvals/service.py:56-170 | in a reachable state, with injective hashes, `require_approved` accepts an edited approved artifact exactly if nothing but the validation flag was changed |
| `ApprovalLaws.DraftVerifiesExactly` | src/airi/approvals/service.py:33-75 | a saved draft verifies against the hashes of its own documents exactly if it records its content's hash and names its metric |
| `ApprovalServices.DecidedIsAccepted` | src/airi/approvals/service.py:94-170 | submitting a draft and deciding its record makes `require_approved` accept it exactly if the decision was an approval, and not before |
| `ApprovalLaws.CommitsNeverFail` | src/airi/approvals/service.py:107-130 | after a won status update neither the unique-artifact constraint nor the row version check can fail |
| `ApprovalLaws.DecisionsAreFinal` | src/airi/approvals/service.py:132-160 | an approved or rejected record never changes again, and its artifact keeps the matching status, whatever runs next |
| `ApprovalLaws.OneDecisionEach` | src/airi/approvals/service.py:94-160 | per record the history holds exactly one submission, and exactly one decision if it is decided |
| `ApprovalLaws.RequireApprovedSound` | src/airi/approvals/service.py:162-170 | `require_approved` succeeds only for a document that was submitted and then approved in exactly its present content |
| `ApprovalLaws.FirstDecisionWins` | src/airi/approvals/service.py:132-160 | of racing deciders the first to win the update decides, whatever other sessions run before its commit and after it; every other one that had verified the record waits without effect until the commit and is rolled back without effect after it |
| `ApprovalServices.ApprovalService.SaveDraft` | src/airi/approvals/service.py:33-47 | inserts a draft exactly when identifier and workflow run are new |
| `ApprovalServices.ApprovalService.Submit` | src/airi/approvals/service.py:94-130 | has exactly the effect of its protocol statements, with each error exactly in its case and no change on error |
| `ApprovalServices.ApprovalService.Decide` | src/airi/approvals/service.py:132-160 | has exactly the effect of its protocol statements; a decided record keeps everything but decision, reviewer, comment and revision, and the artifact is approved exactly for an approval and rejected exactly for a rejection |
| `ApprovalServices.ApprovalService.RequireApproved` | src/airi/approvals/service.py:162-170 | succeeds exactly for a verified, approved record of that artifact |
| `ApprovalServices.SubmitEffect` | src/airi/approvals/service.py:94-130 | an uninterrupted submission moves the artifact to review and inserts its pending record, or changes nothing |
| `ApprovalServices.DecideEffect` | src/airi/approvals/service.py:132-160 | an uninterrupted decision moves record and artifact to the decision, or changes nothing |
| `RefinementTransform.TransformWindow` | src/airi/refinement/transform.py:69-83 | succeeds exactly for a valid thirty-day amount metric and 60 or 90 days, changes only name, display name, description and window size, reports every change, and names its first reason otherwise |
| `RefinementTransform.SemanticDiff` | src/airi/refinement/transform.py:85-103 | accepts exactly when the candidate hashes to the baseline once the four fields are restored and is a valid candidate, and then lists every change |
| `RefinementTransform.DiffAcceptsExactlyRewrites` | src/airi/refinement/transform.py:85-103 | with an injective hash the diff accepts a document if and only if it is the transform of the baseline to its own window, up to the description |
| `RefinementTransform.CandidateValid` | src/airi/refinement/transform.py:45-58 | every transformed baseline is a valid candidate and restores to the baseline |
| `RefinementTransform.DeclaredDocuments` | src/airi/metric_ir/invoice.py:5-38 | up to schema version, description and aliases the valid metrics are the two declared documents and the valid candidates the two rewrites of the amount, and a transformable baseline is rewritten to them with the description of its size |
| `RefinementLaws.ReachableAgrees` | src/airi/refinement/service.py:88-481 | under any interleaving of deciders, evaluators and concluders with stale reads, aborts and edited candidates, the lifecycle invariant holds in every reachable state |
| `RefinementLaws.ConclusionNotStale` | src/airi/refinement/service.py:462-481 | a conclusion that wins its update saves the current report with its own decision added, although it was read before |
| `RefinementRuns.VerdictsAreFinal` | src/airi/refinement/service.py:88-121 | an accepted or rejected proposal decision is never changed by any later statement |
| `RefinementRuns.FinishedRunsAreFrozen` | src/airi/refinement/service.py:293-303 | a finished run keeps status and outcome, its report only gains one final decision, and after that nothing of it changes |
| `RefinementRuns.LifecycleHolds` | src/airi/refinement/service.py:305-481 | a run is entered at most once and exactly if it left review, has an outcome exactly when finished, and is concluded at most once and only when finished |
| `RefinementExecution.ExecutesOnlyTheTransform` | src/airi/execution/service.py:25-34 | with an injective hash, in every run and with edits of the stored candidate at any moment, what a test or an experiment executes is the window transform of the baseline of a proposal that is still accepted; restoring its four rewritten fields gives the baseline |
| `RefinementExecution.CompletedRunsExecuted` | src/airi/refinement/service.py:370-427 | a completed run has executed its test and its experiment |
| `RefinementExecution.EntersTransformExactly` | src/airi/refinement/service.py:331-368 | after a check and any statements of others, the document stored when the run enters evaluation is the transform if and only if nobody edited it since the check or the last edit put the transform back; the entry itself does not look again |
| `RefinementExecution.EditedDocumentIsRefused` | src/airi/execution/service.py:25-34 | a document edited between check and entry does enter evaluation, and the next statement refuses to execute it |
| `RefinementRuns.HistoryKeptExactly` | src/airi/refinement/service.py:107-129 | over every run, a decision that was read and is written after any statements of others takes effect only by its comparison, then leaves exactly the history as it was read with the entry read at its end, and so appends to the stored history if and only if the stored row is the one read; without a rewrite in between it takes effect and appends |
| `RefinementRuns.HistoryCanBeLost` | src/airi/refinement/service.py:107-129 | from the empty store a late session can overwrite two recorded entries, since only the verdict is compared |
| `RefinementRuns.ReadThenWrite` | src/airi/refinement/service.py:88-143 | an undisturbed decision is stopped exactly by a final or repeated verdict, and otherwise matches its own compare-and-set and appends to the history |
| `RefinementServices.RefinementService.Decide` | src/airi/refinement/service.py:88-143 | serially, a decision has exactly the effect of its statements: it is refused exactly when final or repeated, and otherwise keeps the identifier and the whole history |
| `RefinementServices.RefinementService.Evaluate` | src/airi/refinement/service.py:305-460 | serially, an evaluation has exactly the effect of its statements: it finishes a run in review exactly if its proposal is still accepted, the stored candidate hashes to its row and equal to a fresh transform of the baseline, and changes nothing otherwise |
| `RefinementServices.RefinementService.Save` | src/airi/refinement/service.py:293-303 | overwrites row fields and document of one run and keeps the recorded flag |
| `RefinementServices.RefinementService.FinalDecision` | src/airi/refinement/service.py:462-481 | serially, records one decision on a finished, unconcluded run and nothing else |
| `RefinementServices.EvaluateEffect` | src/airi/refinement/service.py:305-460 | the statements of an uninterrupted evaluation finish the run with the outcome, or inconclusive on failure, or change nothing |
| `RefinementServices.AcceptedProposalConcludes` | src/airi/refinement/service.py:180-481 | an accepted proposal goes all the way: a new run holds the rewritten document in review, its evaluation completes it with the experiment's outcome or fails it inconclusively, and a final decision is recorded on it |
| `Packaging.ArtifactFailures` | src/airi/production/packaging.py:47-78 | reports exactly the lineage and package faults that hold, or only the unreadable document |
| `Packaging.BuildPackage` | src/airi/production/packaging.py:81-127 | builds exactly from sound lineage, and otherwise names the alphabetically first fault; the package carries the version's, release's, review's and environment's identifiers each in its place and is synthetic exactly if version or environment is |
| `Packaging.PackageFailures` | src/airi/production/packaging.py:130-157 | returns every fault that holds once, in alphabetical order; an unknown version is an error |
| `PackageLaws.CleanMeansGoverned` | src/airi/production/packaging.py:47-157 | with injective hashes an empty failure list means the SQL is the governed artifact's code, the metric is the version's, the environment is the observed one and no hashed fact was altered |
| `PackageLaws.ContentHashIdentifiesExecution` | src/airi/production/models.py:332-352 | two packages that verify clean at any times and places and share a content hash have the same SQL, metric, artifact content and environment profile |
| `PackageLaws.BuiltVerifiesExactlyWhereBuilt` | src/airi/production/packaging.py:81-157 | a package just built from registered lineage verifies clean if and only if the profile is unchanged and the runtime shows the fingerprint it was built for, if any |
| `PackageLaws.BuiltVerifies` | src/airi/production/packaging.py:81-157 | building and verifying against the same lineage, profile and fingerprint finds nothing, without any assumption on hashes |
| `ConvergenceLaws.PlansAreSound` | src/airi/production/convergence.py:179-330 | the recommended action is always offered, `no_op` is offered exactly when converged and then alone, and an unreported runtime leaves only investigation |
| `ConvergenceLaws.OfferedExactly` | src/airi/production/convergence.py:228-250 | the offered actions are the available ones in the fixed order |
| `ConvergenceLaws.PlansFollowReadings` | src/airi/production/convergence.py:179-330 | read off the versions and surroundings: an unreported runtime offers only investigation and agreement only `no_op`; otherwise a push exactly with an authoritative adapter that supports recovery and a registry on the desired version, or on the deployment's without one, a pull exactly for a known runtime version, recommended in that order, and investigation only without both |
| `ConvergenceLaws.DiagnosisAgrees` | src/airi/production/convergence.py:75-140 | with a runtime on the desired version, `target_already_satisfied` is diagnosed exactly when converged; only an untouched expectation is safe to retry |
| `ConvergenceLaws.RefusalIsConvergence` | src/airi/production/service.py:2884-2900 | planning is refused exactly on a converged reading, so no stored plan offers `no_op` |
| `ConvergenceLaws.ConvergeChangesExactly` | src/airi/production/service.py:3127-3275 | executing a decision changes the system if and only if what it needs was there before the call: for a push an accepting provider, an allowing gate and something to push, for a pull another version to move to, and for doing nothing a version that registry and runtime agree on and the target does not; a converged system is always left as it is |
| `ConvergenceLaws.PushEffect` | src/airi/production/service.py:3205-3275 | a push that is not refused leaves the deployment's own version running, and completes with it as target only if the registry points at it |
| `ConvergenceLaws.PullEffect` | src/airi/production/service.py:3205-3275 | an offered pull finds registry and runtime agreeing already, fails after moving an empty pointer, or makes the runtime's version the active one and the target |
| `ConvergenceLaws.RegistryToRuntimeConvergesExactly` | src/airi/production/convergence.py:200-212 | an offered push to the runtime leads to a plan of exactly `[no_op]` if and only if the registry points at the version the deployment holds a package for |
| `ConvergenceLaws.PushCanLoop` | src/airi/production/service.py:3371-3378 | with registry and target on another version than the deployment's, the push is recommended again after every execution |
| `ConvergenceLaws.RuntimeToRegistryConvergesExactly` | src/airi/production/service.py:3127-3395 | an offered pull into the registry leads to `[no_op]` if and only if there is a different old pointer to move, or nothing else is desired |
| `ConvergenceLaws.OutdatedPullNeverVerifies` | src/airi/production/service.py:3379-3394 | a pull executed after the runtime moved on leaves a mismatch and does not change the target |
| `ConvergenceLaws.ConvergeKeepsRegistry` | src/airi/registry/service.py:1017-1060 | every execution keeps the pointer on a known version, with exactly that version in use if there was a pointer before |
| `ConvergenceLaws.FollowingSettlesInOneRound` | src/airi/production/service.py:3127-3395 | following the recommendation for any number of rounds gives the state of the first round, converged or not |
| `ReconciliationServices.MockAdapter.Deploy` | src/airi/production/adapters.py:258-273 | a successful deployment is what the next status reports, and no other record changes |
| `ReconciliationServices.MockAdapter.Status` | src/airi/production/adapters.py:275-290 | reports a version exactly for an active record, and unknown without a record |
| `ReconciliationServices.MockAdapter.Rollback` | src/airi/production/adapters.py:292-317 | runs the target if there is one, otherwise stops the runtime; failing or unknown, it changes nothing |
| `ReconciliationServices.Reconciler.Observe` | src/airi/production/service.py:2538-2596 | reads pointer and runtime and compares them, writing nothing |
| `ReconciliationServices.Reconciler.MakePlan` | src/airi/production/service.py:2884-2925 | plans exactly when not converged, with the specified offer and recommendation |
| `ReconciliationServices.Reconciler.MoveActiveVersion` | src/airi/registry/service.py:1017-1060 | succeeds exactly from the current, existing pointer to a version the registry holds, and then exactly that version is in use; an outdated pointer is refused without a change and any other failure leaves the pointer moved |
| `ReconciliationServices.Reconciler.Perform` | src/airi/production/service.py:3371-3395 | an executed push makes the deployment's own version what runs, an executed pull makes the plan's runtime version the active one; neither touches the target, and what is skipped changes nothing (`ConvergenceLaws.PushEffect`, `PullEffect`) |
| `ReconciliationServices.Reconciler.ConvergeNow` | src/airi/production/service.py:3127-3368 | observes, acts only if needed, observes again and takes the verified version as target, exactly as specified |
| `Histograms.BinsFromValues` | src/airi/production/monitoring.py:40-64 | the distribution counts each value in the half-open equal-width interval it lies in and absent ones in one last NULL bin |
| `Histograms.CountInto` | src/airi/production/monitoring.py:53-55 | one pass of counters holds the number of values per interval |
| `Histograms.Edges` | src/airi/production/monitoring.py:48-52 | the interior edges are the equal steps between the extremes, none for equal extremes |
| `Histograms.CountsAddUp` | src/airi/production/monitoring.py:40-64 | bin counts add up to the number of inputs |
| `Histograms.EndBinsNotEmpty` | src/airi/production/monitoring.py:45-60 | the first and the last numeric bin are not empty |
| `Histograms.AcceptedExactly` | src/airi/production/models.py:429-445 | the distribution model accepts the result if and only if at most 63 bins were requested or no two values differ |
| `Histograms.DescriptionComplete` | src/airi/production/monitoring.py:40-64 | the description determines the distribution, and only from the values as a multiset |
| `Findings.MergeByKey` | src/airi/production/monitoring.py:310-333 | the grouping loops compute the specified merge |
| `Findings.OnePerKey` | src/airi/production/monitoring.py:310-333 | the merge has exactly one finding per type and severity that occurs |
| `Findings.EvidencePreserved` | src/airi/production/monitoring.py:318-332 | a merged finding carries the evidence of all its findings, in their order, and a single finding stays itself |
| `Findings.MergeOrdered` | src/airi/production/monitoring.py:333-333 | the merge follows the evaluation order, severities of one type in the order of first occurrence |
| `Findings.MergeIdempotent` | src/airi/production/monitoring.py:310-333 | merging merged findings changes nothing |
| `Findings.AlertsCountedOnce` | src/airi/production/monitoring.py:88-92 | with an injective hash one snapshot contributes each alert key at most once |
| `Findings.Assess` | src/airi/production/monitoring.py:126-307 | at most one finding per type, in evaluation order; each of the seven types is reported if and only if the reading itself exceeds the policy's threshold (a share of failed runs, a duration, a coverage below and a null rate above the baseline's, a duplicate rate, a shift, or a named reason of missing data), and critical exactly above twice the threshold, with every run failed, or above the critical shift; each finding carries reading and threshold, missing data every reason |
| `Findings.WorseNeverQuieter` | src/airi/production/monitoring.py:126-290 | a snapshot with no fewer failures, no lower duration, null rate, duplicate rate or shift, no higher coverage and no fewer reasons of missing data loses no finding and lowers no severity, whatever the thresholds |
| `Expectations.EvaluateExpectation` | src/airi/production/expectations.py:88-159 | a reading is due exactly the interval's hours after the last one, or after the declaration, and overdue the grace hours later; status follows these two times, silence is a finding exactly from the second on whatever count is supplied, and lateness exactly for a late last reading |
| `Expectations.StatusMonotone` | src/airi/production/expectations.py:116-135 | in a fixed window the status only moves from satisfied over due-soon to overdue, and a newer reading never worsens it |
| `Expectations.KeyIdentifiesWindow` | src/airi/production/expectations.py:58-85 | two windows of an expectation share an alert key exactly when they start at the same reading |
| `Expectations.OccurrencesCountEvaluations` | src/airi/production/service.py:3966-4000 | after any run the alert of a finding and window was counted exactly once per evaluation that found it there |
| `Expectations.ArrivalOpensWindowExactly` | src/airi/production/expectations.py:41-80 | a reading observed later than all before opens a window without alerts, and any other arrival leaves the window as it was |
| `Expectations.FreshnessMonotone` | src/airi/production/monitoring.py:103-116 | fresh up to the first limit in hours and late beyond both, a later receipt or an earlier observation is never fresher, and a reading from the future is fresh |
| `ExpectationServices.ExpectationService.Evaluate` | src/airi/production/service.py:3843-3897 | records one alert per finding of the open window, exactly as one step of the run |
| `ExpectationServices.ExpectationService.RecordAlert` | src/airi/production/service.py:4067-4165 | creates the alert of a key once, and afterwards counts and reopens it |
| `ExpectationServices.ExpectationService.LatestReading` | src/airi/production/service.py:3602-3608 | the last snapshot in observation order is the latest reading |
| `Verification.BuildReport` | src/airi/production/verification.py:33-97 | each of the nine sections is verified and has failed exactly on the stated observations; the report is verified overall exactly if the environment is real, deployable and as packaged, identities are trusted, a production adapter, runtime and confirmed production deployment are in place, the shadow run passed read-only and the telemetry is real and verified (and, if required, the rollback), and failed exactly on a failed required section |
| `Verification.Aggregate` | src/airi/production/verification.py:60-78 | blocking, unverified and overall follow from the sections |
| `Gate.EvaluateGate` | src/airi/production/gate.py:84-211 | on the request's own fields: pinned to enforcement, or unpinned in production and not synthetic, an action goes ahead exactly if nothing protected failed, every section its kind needs is verified or waived and a rollback's adapter has the capability; otherwise exactly if nothing protected failed; and it says which requirements are missing |
| `Gate.OpenExactly` | src/airi/production/gate.py:39-62 | environment, identity and adapter are needed by every action, the runtime identity by all but a rollback, the shadow run by a deployment only, and the capability by a rollback only |
| `Gate.ProtectedFailures` | src/airi/production/gate.py:109-117 | lists exactly the failures no override reaches |
| `Gate.Missing` | src/airi/production/gate.py:119-121 | lists exactly the sections and capabilities left open |
| `GateLaws.OverridesReachExactly` | src/airi/production/gate.py:77-145 | an override is built (models.py:1673-1723) exactly from waivers without package integrity, artifact integrity, metric version identity and actor authentication; whichever is presented, an action passes with it if and only if it passes without one or nothing protected failed and all that is open are required sections it names |
| `GateLaws.EnforcedExactly` | src/airi/production/gate.py:150-195 | enforced, an action passes if and only if nothing protected failed, every required section is verified or waived and every capability holds |
| `GateLaws.MoreEvidenceNeverBlocks` | src/airi/production/gate.py:84-211 | more verified sections, waivers or capabilities never turn an allowed action into a blocked one |
| `GateLaws.DeployIsStrictest` | src/airi/production/gate.py:39-54 | what passes for a deployment passes for a reconciliation, and for a rollback exactly with the capability or without enforcement |
| `GateLaws.VerifiedReportPasses` | src/airi/production/verification.py:60-78 | an overall verified report about the deployment passes the deploy and reconciliation gates without override, and the rollback gate exactly with the capability or without enforcement |
| `GateLaws.PassingDeploysGovernedCode` | src/airi/production/service.py:412-471 | an enforced deployment that passes without override runs the governed artifact's code for its version, on the verified cluster the package was built for |

## Left out

- Decimal rounding to 50 digits and the conversion of results to `float`: all arithmetic is exact, on `real`.
- `decimal.Decimal.ln`: a function parameter; its sign law or its reciprocal law is a hypothesis where a law needs it.
- SHA-256, the UTF-8 encoding of hashed text, UUIDs and clocks: hashes are function parameters (injective where stated), identifiers and times are arguments.
- Databases: a statement is atomic on the committed rows, a conditional update holds its row until commit or rollback, and unique keys are maps or explicit guards; isolation levels, connection loss inside a commit and schema migrations are not modelled.
- ApprovalLaws.FirstDecisionWins: takes deciders that have both verified the record before either updates, of which the later one then only tries its update; a decider that comes later meets the decided record and is covered by `DecisionsAreFinal`.
- RefinementLaws.ReachableAgrees: `CheckRun` reads report, decision and stored candidate at one moment, and the further checks of `evaluate` (input hash, execution mode, candidate approval, row hashes) may pass or fail freely, so that the invariant covers more runs than the service allows.
- RefinementExecution.ExecutesOnlyTheTransform: the executed document is the metric document of the candidate; its generated code, which the same hash check covers, the sandbox and what a test or an experiment returns are not modelled. The hash column of a candidate is written at its creation only, as in the code.
- `RefinementService.create`: only its guards on the accepted proposal and its inserted rows appear, as one step; generation, review context and comparison of candidates are left out.
- RefinementTransform.SemanticDiff: assumes that both documents have a window, which every metric that reaches it has.
- ClientJson.Canonicalize: a key named `__proto__`, which a JavaScript assignment does not store, is treated like any other, and so are lone surrogates, which no Dafny string contains.
- JsonText.ClientHashAgreesExactly: a number is the numeral that is written for it; that JavaScript and Python write some numbers differently, such as `1.0`, is not modelled.
- EvaluationDataset.BuildDataset: `str` and `Decimal(str(...))` of a cell are parameters, and Python types other than strings, integers and null are one opaque case.
- Packaging.PackageFailures: `version_by_id` either finds an intact version or fails; the registry's own integrity checks are not modelled.
- ConvergenceLaws.RegistryToRuntimeConvergesExactly: assumes a provider that accepts the deployment and a gate that allows it; a refusal of either changes nothing. The runtime is the mock's overwrite map for a provider that may be authoritative; the Spark activation ledger, whose status reads the first matching row, is not modelled.
- ReconciliationServices.Reconciler.ConvergeNow: authorization, events, stored results and the transition of release rows are left out, and the deployment's package is for the deployment's own version.
- `verdict` of a stored reconciliation plan: it can differ from the convergence state when a version is desired, and nothing here relies on it.
- Histograms.BinsFromValues: with rounded `float` edges the first edge could meet the minimum; here edges are exact.
- The population stability index, telemetry source health, notification delivery, shadow comparison, temporal validation and feedback.
- Findings.Assess: evidence keeps value and threshold or reason; further descriptive fields and the rounding of gap hours are dropped.
- ExpectationServices.ExpectationService.LatestReading: of readings with equal observation times the last to arrive counts; the database's order of equal times is not specified.
- ExpectationServices.ExpectationService.RecordAlert: severity, evidence and times of an alert are dropped, and a human decision only closes it.
- Gate.EvaluateGate: sorted name lists without repetitions are sets, and evidence references and texts are dropped; whether an override is in force at a time is decided before the call.
- Verification.BuildReport: section evidence and texts are dropped, and the policy's fixed `False` for rollback is a parameter.
- The metric IR validators other than that of the invoice metrics, the join compiler, SQL generation, HTTP routes, the web pages other than the canonical hash, language-model and chat providers, identity checks and demo scripts.
