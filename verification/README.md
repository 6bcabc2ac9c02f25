# Verification of the evaluation and evidence core

A Dafny model of the parts of the AI QA copilot that keep money, reviews,
approvals and evidence in order, with proofs of what they promise.
`dafny verify dfyconfig.toml` checks the whole project.

| file | what it models |
|---|---|
| `Basics.dfy`, `JsonTree.dfy` | Python text operations, code point order, JSON trees and Python's `==` on them |
| `SpendArithmetic.dfy`, `SpendControl.dfy`, `SpendConcurrency.dfy` | spend-controlled provider calls: arithmetic, the object and its ledger, any interleaving of callers |
| `SpendOverlap.dfy` | what a caller does alone, and what an overlap changes |
| `SpendOutcomes.dfy`, `LedgerContents.dfy` | what one call does and what a ledger line says, in plain figures |
| `SpendOvershoot.dfy` | when exactly the run limit is passed, and what tells so before a call |
| `C1Model.dfy`, `RunProvenance.dfy` | the older C1 controller, its bisimulation with the newer one, and the totals taken from ledgers |
| `JsonPointer.dfy` | flattening of labels, `$ref` locations and pointer resolution (sections 3 and 4 of RFC 6901) |
| `PointerDecoding.dfy` | percent-decoding, and which locations lead back to their node |
| `ReviewLabels.dfy`, `ReviewStore.dfy`, `ReviewService.dfy` | label rules, the append-only store, and the repository and service as objects |
| `ReviewInvariant.dfy`, `ReviewTheorems.dfy` | the store invariant, and what holds of every run: chains, separation, approval, partial adjudication |
| `LabelContents.dfy`, `RecordedEvidence.dfy` | valid labels and everything the service puts on record, field by field |
| `ReviewStuck.dfy` | how an adjudication sticks its pair: a run that gets there, and the exact boundaries |
| `LabelCompleteness.dfy` | the offline validator of release-review evidence and what acceptance guarantees |
| `ReleaseClaims.dfy`, `ReleaseWitness.dfy` | what accepted evidence claims, over the manifest's own entries, and concrete manifests |
| `Approvals.dfy` | one-time approvals as a constrained table with interleaved workers |
| `ApprovalContents.dfy` | what the table takes and what creations and grants answer |
| `CandidateExecutor.dfy` | exclusive candidate execution by interleaved threads over a shared directory |
| `CandidateOutcomes.dfy` | what adapters are shown and what an execution leaves behind |
| `EvaluationRunner.dfy`, `RunReport.dfy` | bounded runs, completion order, resuming, and the report codec |
| `RunOutcomes.dfy`, `ReportReading.dfy` | when a run is produced and what its results say; which reports are read, and as what |
| `Manifest.dfy`, `ManifestReports.dfy` | line-ending normalization and the manifest comparison |
| `Redaction.dfy` | redaction of evidence trees |
| `Citations.dfy` | single and batch citation creation over keyed tables |
| `CitationContents.dfy` | what a citation says and which rows are added |
| `Instances.dfy` | the report and manifest theorems at their real field names |

Objects of the source are classes whose methods are proved equal to functions
on values; the theorems are about those functions. What an operation answers
and records is also stated without them, in the entries of the source itself
(the `Outcomes`, `Contents`, `Claims` and `Reports` files). Protocols of several
workers are step functions over a shared state, and the theorems quantify over
every sequence of steps. Library functions that the code only calls are
parameters: `str.strip()` where only its stability matters, `str.lower()`,
UTF-8 decoding of escaped bytes, the URL codec, digests, timestamp parsing and the plan
snapshot codec. What is assumed of such a parameter is written as a predicate
next to it.

## Findings

Where a promise turns out not to hold on all inputs, the code is kept as it is
and the exact boundary is proved.

- A blank rationale after an accepted one aborts `adjudicate` half-way, and
  exactly then (`ReviewTheorems.BlankRationaleSticksThePair`). The pair is
  stuck: it is never adjudicated again and never approved
  (`ReviewTheorems.StuckForever`); `ReviewStuck.ARunGetsStuck` is a run of seven
  requests that gets there. When the first rationale is the blank one, a
  repetition with the same labels is rejected, because the label was already
  filed (`ReviewTheorems.RepeatIsRejected`); it is filed exactly when the
  validated labels differ (`ReviewStuck.RetryIsFiledExactly`).
- The run limit can be passed by a call that keeps to cap and tolerance
  (`SpendOvershoot.ToleratedCallOvershoots`), by at most the tolerated slack
  (`SpendControl.RunLimitHolds`). Whether an answer can do so is known before the
  call: `SpendOvershoot.FittingTextsKeepTheLimit`, and for whole runs
  `SpendOvershoot.LimitIsSafeExactlyWhenTextsFit`.
- The locations that `_walk_refs` reports are not percent-encoded while the
  resolver decodes them. They lead back to their node exactly when no key on the
  path holds a percent sign followed by two hexadecimal digits
  (`PointerDecoding.EscapeFreeLocationsLeadBack`).
- `canonical_manifest_bytes` is idempotent exactly on bytes without CR CR LF
  (`Manifest.CanonicalIsIdempotentExactlyWithoutCrCrLf`,
  `Manifest.CrCrLfIsReadTwice`).
- The manifest comparison uses Python's `==`, so `true` and `1.0` pass for `1`
  (`Manifest.TrueIsTakenForOne`); up to that equality it is exact.
- `create` reports every violated constraint of the approvals table as a
  conflict (`Approvals.CreateConflictsExactly`), while `consume` reports a
  violated one as unavailable (`Approvals.ConsumeIsUnavailableExactly`).

## Model

| member | source | states |
|---|---|---|
| SpendArithmetic.CostMicrousd | apps/api/src/ai_qa_copilot_api/evaluation_spend_control.py:133-142 | the cost is the least whole number of micro-USD that covers the exact price |
| SpendArithmetic.EstimateCoversText | apps/api/src/ai_qa_copilot_api/evaluation_spend_control.py:125-130 | the estimate is the least token count whose calibrated characters cover the text |
| SpendArithmetic.WorstCaseCoversCharge | apps/api/src/ai_qa_copilot_api/evaluation_spend_control.py:133-142 | input within the estimate and output within the cap never cost more than the worst case |
| SpendArithmetic.ToleratedChargeBound | apps/api/src/ai_qa_copilot_api/evaluation_spend_control.py:125-146 | input within the tolerance exceeds the worst case by at most the tolerance of it, rounded up once |
| SpendControl.RunLimitHolds | apps/api/src/ai_qa_copilot_api/evaluation_spend_control.py:245-332 | over every run the total passes the run limit only by a last record that failed after spending, and by at most the tolerated slack when cap and tolerance were kept |
| SpendControl.EveryRunIsSound | apps/api/src/ai_qa_copilot_api/evaluation_spend_control.py:256-383 | in every run running totals are prefix sums of the charges, calls are numbered from one, every record is lawful, and at most the last one failed |
| SpendControl.BooksStayBalanced | apps/api/src/ai_qa_copilot_api/evaluation_spend_control.py:280-347 | settling one more call keeps the books balanced, whatever the provider answers |
| SpendControl.ClosedForever | apps/api/src/ai_qa_copilot_api/evaluation_spend_control.py:247-254 | after a failure nothing is charged, counted or recorded any more |
| SpendControl.PaidOnlyIfAdmitted | apps/api/src/ai_qa_copilot_api/evaluation_spend_control.py:262-284 | a call that either limit refuses costs nothing and does not depend on the provider's answer |
| SpendControl.SpendControlledCalls.Run | apps/api/src/ai_qa_copilot_api/evaluation_spend_control.py:225-243 | an overlapping call only closes the object; any other call has exactly the effect of one settled call |
| SpendControl.SpendControlledCalls.RunUnlocked | apps/api/src/ai_qa_copilot_api/evaluation_spend_control.py:245-332 | the imperative settling of a call equals its specification, in state, ledger and answer |
| SpendControl.SpendControlledCalls.Fail | apps/api/src/ai_qa_copilot_api/evaluation_spend_control.py:334-347 | a failure latches its reason, adds its charge and writes its record |
| SpendOutcomes.AnsweredCall | apps/api/src/ai_qa_copilot_api/evaluation_spend_control.py:280-332 | an admitted, answered call costs the least whole micro-USD of its tokens and succeeds if and only if its details are in order, the run limit holds, the input is within the tolerance and the output was accepted; else the first of these that fails is the reason; every figure of the record is given |
| SpendOutcomes.RefusedCall | apps/api/src/ai_qa_copilot_api/evaluation_spend_control.py:262-279 | a call beyond a limit costs nothing, closes the controller with the limit it breaks, and is recorded without an answer |
| SpendOutcomes.FailedCall | apps/api/src/ai_qa_copilot_api/evaluation_spend_control.py:280-294 | a provider failure is charged with the worst case and recorded without an answer |
| SpendOutcomes.SuccessKeepsItsDetails | apps/api/src/ai_qa_copilot_api/evaluation_spend_control.py:308-313 | the record of a success carries under each extra field the value that the details gave |
| SpendOvershoot.ToleratedCallOvershoots | apps/api/src/ai_qa_copilot_api/evaluation_spend_control.py:260-316 | a concrete call that keeps to output cap and tolerance takes the total from 0 to 110 under a run limit of 100 |
| SpendOvershoot.OvershootsExactly | apps/api/src/ai_qa_copilot_api/evaluation_spend_control.py:260-316 | from a total within the limit one call passes it exactly when it is admitted and its answer costs more than what is left; it then closes the controller |
| SpendOvershoot.RunOvershootsExactly | apps/api/src/ai_qa_copilot_api/evaluation_spend_control.py:245-332 | a run ends past the limit if and only if one of its calls does that, which is then the last settled one |
| SpendOvershoot.FittingTextsKeepTheLimit | apps/api/src/ai_qa_copilot_api/evaluation_spend_control.py:125-146 | before a call: all answers within cap and tolerance keep the run limit if and only if the text is refused or the cost of floor(estimate * (1 + tolerance)) input tokens and the output cap fits in what is left |
| SpendOvershoot.LimitIsSafeExactlyWhenTextsFit | apps/api/src/ai_qa_copilot_api/evaluation_spend_control.py:245-332 | for any sequence of texts: no tolerated answers take the run past its limit if and only if each text fits when its turn comes, in every such run |
| SpendConcurrency.EveryInterleavingKeepsInv | apps/api/src/ai_qa_copilot_api/evaluation_spend_control.py:225-332 | under any interleaving of callers the shared fields are those of the recorded calls run one by one, up to the step of the lock holder |
| SpendConcurrency.OneRequestInFlight | apps/api/src/ai_qa_copilot_api/evaluation_spend_control.py:225-243 | at most one provider request is in flight |
| SpendConcurrency.InterleavingsAreSequential | apps/api/src/ai_qa_copilot_api/evaluation_spend_control.py:225-332 | whenever the lock is free, ledger, total and count are those of a sequential run of the recorded calls |
| SpendConcurrency.RunLimitInEveryState | apps/api/src/ai_qa_copilot_api/evaluation_spend_control.py:225-332 | in every intermediate state the total is within the run limit or explained by a call that failed after spending |
| SpendConcurrency.NoRequestAfterClosing | apps/api/src/ai_qa_copilot_api/evaluation_spend_control.py:225-254 | after a failure or an overlap only the caller that had already passed the closed check can still call the provider, and while it does nobody else is in flight |
| SpendOverlap.AloneIsOneCall | apps/api/src/ai_qa_copilot_api/evaluation_spend_control.py:225-332 | a caller that nobody overlaps does to the shared fields exactly what one settled call does, closed or not, admitted or refused, and gives the lock back |
| SpendOverlap.OverlapsClose | apps/api/src/ai_qa_copilot_api/evaluation_spend_control.py:234-239 | a caller that finds the lock taken does nothing but close the object, and when it is back the object is closed |
| SpendOverlap.OnlyOverlapsTell | apps/api/src/ai_qa_copilot_api/evaluation_spend_control.py:225-347 | callers that never overlap are the sequential controller, with its very reason for being closed; after an overlap the object is closed |
| C1Model.C1B0Model.Complete | apps/api/src/ai_qa_copilot_api/c1_evaluation_model.py:260-270 | the older controller's locked entry: an overlap latches, any other prompt has the effect of one settled call |
| C1Model.C1B0Model.CompleteUnlocked | apps/api/src/ai_qa_copilot_api/c1_evaluation_model.py:272-343 | the older controller's settling of a prompt equals its specification |
| C1Model.C1B0Model.Fail | apps/api/src/ai_qa_copilot_api/c1_evaluation_model.py:368-381 | the older controller's failure latches, charges and records |
| C1Model.StepsAgree | apps/api/src/ai_qa_copilot_api/c1_evaluation_model.py:260-381 | one step of the bisimulation: from related states both controllers accept or reject the same call for the same reason and stay related |
| C1Model.TwinsAgree | apps/api/src/ai_qa_copilot_api/c1_evaluation_model.py:260-381 | for every sequence of prompts and outcomes both controllers reach related states with the same ledger |
| C1Model.LedgerAccountsForTotal | apps/api/src/ai_qa_copilot_api/c1_evaluation_model.py:278-411 | the ledger's charges add up to the controller's total, one record per call |
| LedgerContents.PromptIsEstimated | apps/api/src/ai_qa_copilot_api/c1_evaluation_model.py:180-195 | the estimate is the least token count with 2.1 characters each for the prompt and the 352 characters around it |
| LedgerContents.C1AnswersExactly | apps/api/src/ai_qa_copilot_api/c1_evaluation_model.py:272-366 | an open C1 controller answers if and only if the worst case for 4096 output tokens is within both limits, the provider answered, the run limit holds, input is at most 1.15 times the estimate and the output is a proper B0 observation; the record's figures are given |
| RunProvenance.SumLedger | apps/api/src/ai_qa_copilot_api/evaluation_run_provenance.py:122-149 | a ledger is accepted exactly when every line is, and then its charges are summed |
| RunProvenance.LedgerProvenance | apps/api/src/ai_qa_copilot_api/evaluation_run_provenance.py:122-149 | accepted exactly when there is a ledger and all lines are accepted; reports the number of lines and the sum of charges |
| RunProvenance.LedgerReadsBack | apps/api/src/ai_qa_copilot_api/evaluation_run_provenance.py:122-149 | every ledger that a C1 run writes is accepted and adds up to the charges of the run |
| LedgerContents.LineExactly | apps/api/src/ai_qa_copilot_api/evaluation_run_provenance.py:124-147 | no line of another schema, provider, model, configuration, pricing or limit is ever accepted, nor one without a non-negative whole charge |
| LedgerContents.LedgerAddsUp | apps/api/src/ai_qa_copilot_api/evaluation_run_provenance.py:122-149 | an accepted ledger consists of such lines and adds up their charges |
| LedgerContents.LineSays | apps/api/src/ai_qa_copilot_api/c1_evaluation_model.py:384-411 | a ledger line says under each entry what its record holds |
| LedgerContents.LineSaysTokens | apps/api/src/ai_qa_copilot_api/c1_evaluation_model.py:384-411 | so it does for the tokens, the response and the reason of a failure, which are null where there is none |
| RunProvenance.ProvenanceOfRuns | apps/api/src/ai_qa_copilot_api/evaluation_run_provenance.py:122-149 | over several C1 runs the provenance equals the sums of their controllers' calls and totals |
| JsonPointer.UnescapeEscape | apps/api/src/ai_qa_copilot_api/evaluation_reviews.py:1148-1149 | the pointer escape of a key is undone by the resolver's unescape |
| JsonPointer.RenderInjective | apps/api/src/ai_qa_copilot_api/evaluation_reviews.py:1120-1149 | no two nodes of a document share a rendered path |
| JsonPointer.LeafPathsAreTheLeaves | apps/api/src/ai_qa_copilot_api/evaluation_reviews.py:1120-1146 | the flattened paths are exactly those of the leaves |
| JsonPointer.FlattenIsLossless | apps/api/src/ai_qa_copilot_api/evaluation_reviews.py:1120-1146 | each leaf has its own path and the entry at that path is the leaf |
| JsonPointer.LabelFlattener.Visit | apps/api/src/ai_qa_copilot_api/evaluation_reviews.py:1123-1142 | the recursive visit files every leaf below a node under its path and changes nothing else |
| JsonPointer.FlattenLabels | apps/api/src/ai_qa_copilot_api/evaluation_reviews.py:1120-1146 | the imperative flattening equals the leaf map |
| JsonPointer.ResolveJsonPointer | scripts/validate_docs.py:397-421 | the resolver loop equals following the decoded tokens, with all five errors |
| JsonPointer.WalkRefsYieldsRefs | scripts/validate_docs.py:424-437 | whatever is yielded is a $ref member at its own location |
| JsonPointer.WalkRefsYieldsAllRefs | scripts/validate_docs.py:424-437 | every $ref member is yielded |
| JsonPointer.ResolveUndecoded | scripts/validate_docs.py:397-421 | a location that percent-decoding leaves alone resolves to its own node |
| JsonPointer.LocationsResolve | scripts/validate_docs.py:397-437 | without percent signs in keys every yielded location resolves to exactly the yielded value |
| JsonPointer.FlattenedPathsResolve | scripts/validate_docs.py:397-421 | a flattened review path resolves to the flattened value |
| PointerDecoding.LocationLeadsBackExactly | scripts/validate_docs.py:397-421 | for every token path and whatever the decoding does: the location leads back to its node in every document that has one there if and only if, once decoded, it spells the same tokens |
| PointerDecoding.EscapeFreeLocationsLeadBack | scripts/validate_docs.py:397-421 | with percent-decoding as the library does it, that is if and only if no key on the path holds a percent sign followed by two hexadecimal digits |
| PointerDecoding.ReportedReferencesResolveExactly | scripts/validate_docs.py:397-437 | the same of every location that is yielded for a $ref member, which resolves to the yielded value |
| PointerDecoding.EscapedKeyMisresolves | scripts/validate_docs.py:397-421 | every path with an escape in a key has a document in which its location misses the value that is there |
| PointerDecoding.PercentKeysMisresolve | scripts/validate_docs.py:397-437 | a reference under any single key, separators and tildes included, resolves to its value if and only if the key holds no percent escape |
| ReviewLabels.MaterialAgreementIsSameJudgment | apps/api/src/ai_qa_copilot_api/evaluation_review_labels.py:10-226 | two valid labels differ in no material field if and only if they agree on everything but evidence and rationale, derived score and acceptance included |
| ReviewLabels.TestCasesAgree | apps/api/src/ai_qa_copilot_api/evaluation_review_labels.py:145-196 | agreement on the material fields of a test case forces equal total score and acceptance |
| LabelContents.FindingExactly | apps/api/src/ai_qa_copilot_api/evaluation_review_labels.py:94-143 | a finding is valid exactly with its seven fields, an assessment of each of the four criteria, evidence, a rationale and the score that criteria and claim call for; it keeps them, stripped |
| LabelContents.TestCaseExactly | apps/api/src/ai_qa_copilot_api/evaluation_review_labels.py:145-196 | a test case is valid exactly with its seven fields, a score from 0 to 2 in each of the five dimensions, two booleans, evidence and a rationale; it keeps them |
| LabelContents.FailureAnalysisExactly | apps/api/src/ai_qa_copilot_api/evaluation_review_labels.py:198-226 | a failure analysis is valid exactly with its five fields, an assessment of each of the six criteria, evidence and a rationale; it keeps them, stripped |
| LabelContents.FindingScoreExactly | apps/api/src/ai_qa_copilot_api/evaluation_review_labels.py:119-126 | the score is 0 exactly for an unsupported claim or a failed criterion, and 2 exactly when every criterion is met without one |
| LabelContents.TestCaseAcceptedExactly | apps/api/src/ai_qa_copilot_api/evaluation_review_labels.py:172-183 | a test case is accepted exactly with every dimension scored, eight points in all, no policy violation and no material duplicate |
| LabelContents.StoredLabelsReadBack | apps/api/src/ai_qa_copilot_api/evaluation_review_labels.py:46-226 | what is stored of a label is its normal form: validating it again, without the derived fields, yields the same label |
| LabelContents.MaterialFindingPaths | apps/api/src/ai_qa_copilot_api/evaluation_review_labels.py:12-22 | the material paths of a finding are the score, the claim and its four criteria |
| LabelContents.MaterialTestCasePaths | apps/api/src/ai_qa_copilot_api/evaluation_review_labels.py:23-33 | the material paths of a test case are its five dimensions and the two flags |
| LabelContents.MaterialFailurePaths | apps/api/src/ai_qa_copilot_api/evaluation_review_labels.py:34-43 | the material paths of a failure analysis are its six criteria |
| LabelContents.StripIsMiddle | apps/api/src/ai_qa_copilot_api/evaluation_review_labels.py:306-309 | stripping takes away white space at the two ends and nothing else |
| ReviewService.ReviewRepository.ListLabels | apps/api/src/ai_qa_copilot_api/evaluation_reviews.py:227-240 | the labels of one case and subject, in order |
| ReviewService.ReviewRepository.ListDisagreements | apps/api/src/ai_qa_copilot_api/evaluation_reviews.py:249-260 | the disagreements of one pair, in order |
| ReviewService.ReviewRepository.ListAdjudications | apps/api/src/ai_qa_copilot_api/evaluation_reviews.py:269-278 | the adjudications of one disagreement, in order |
| ReviewService.EvaluationReviewService.RecordAttestation | apps/api/src/ai_qa_copilot_api/evaluation_reviews.py:586-609 | store and answer equal the specification, blank texts rejected |
| ReviewService.EvaluationReviewService.AttestationFor | apps/api/src/ai_qa_copilot_api/evaluation_reviews.py:1044-1074 | the attestation checks, in order, with their errors |
| RecordedEvidence.AttestedExactly | apps/api/src/ai_qa_copilot_api/evaluation_reviews.py:1044-1074 | a review is attested exactly by an eligible attestation of that reviewer for the very versions, independent where asked for |
| ReviewService.EvaluationReviewService.Latest | apps/api/src/ai_qa_copilot_api/evaluation_reviews.py:1082-1108 | the label with the greatest revision, time and identifier |
| RecordedEvidence.LatestExactly | apps/api/src/ai_qa_copilot_api/evaluation_reviews.py:1082-1108 | there is a latest label exactly if the subject has one in that role, and no other comes after it by revision, time and identifier |
| ReviewService.EvaluationReviewService.CreateLabel | apps/api/src/ai_qa_copilot_api/evaluation_reviews.py:923-1042 | store and answer of label creation, with every rejection, equal the specification |
| RecordedEvidence.LabelIsFiledExactly | apps/api/src/ai_qa_copilot_api/evaluation_reviews.py:923-1042 | a label is filed if and only if its texts are given, its digests are digests, the hashes fit the role, its fields are valid and it changes the latest revision; what is filed is given field by field |
| ReviewService.EvaluationReviewService.SubmitPrimary | apps/api/src/ai_qa_copilot_api/evaluation_reviews.py:611-649 | store and answer equal the specification |
| ReviewService.EvaluationReviewService.SubmitIndependent | apps/api/src/ai_qa_copilot_api/evaluation_reviews.py:678-730 | store and answer equal the specification |
| ReviewService.EvaluationReviewService.RecordMaterialDisagreements | apps/api/src/ai_qa_copilot_api/evaluation_reviews.py:732-781 | existing disagreements are returned, otherwise one is recorded per differing path, in sorted order |
| ReviewService.EvaluationReviewService.RecordDifferences | apps/api/src/ai_qa_copilot_api/evaluation_reviews.py:752-781 | walking the sorted paths records exactly the differing ones, in order |
| RecordedEvidence.ComparisonIsRecorded | apps/api/src/ai_qa_copilot_api/evaluation_reviews.py:752-781 | a pair not yet compared gets exactly one record for each path at which the stored labels differ, in sorted order, each with the leaf that the primary and the leaf that the independent label has there, or none; they are returned and nothing else changes |
| RecordedEvidence.ComparisonIsRepeated | apps/api/src/ai_qa_copilot_api/evaluation_reviews.py:745-750 | a pair with records keeps them: exactly these are returned and nothing changes |
| RecordedEvidence.ComparisonFailsExactly | apps/api/src/ai_qa_copilot_api/evaluation_reviews.py:732-744 | the comparison fails exactly for no label, one that is not independent, or one without its primary label |
| ReviewService.EvaluationReviewService.Adjudicate | apps/api/src/ai_qa_copilot_api/evaluation_reviews.py:783-873 | store and answer equal the specification, also when a blank rationale aborts half-way |
| RecordedEvidence.AdjudicatedLabelIsFiled | apps/api/src/ai_qa_copilot_api/evaluation_reviews.py:833-855 | an adjudicated label is of its pair's case, by the adjudicator under the given attestation, without hashes, with the validated labels, and linked to both reviews |
| RecordedEvidence.AdjudicationsAreRecorded | apps/api/src/ai_qa_copilot_api/evaluation_reviews.py:857-871 | a successful adjudication gives each material disagreement, in order, one adjudication with the new label, the adjudicator and the stripped rationale for it |
| ReviewService.EvaluationReviewService.FileAdjudications | apps/api/src/ai_qa_copilot_api/evaluation_reviews.py:857-873 | the loop files one adjudication per rationale up to the first blank one |
| ReviewService.EvaluationReviewService.ApprovedFinalLabel | apps/api/src/ai_qa_copilot_api/evaluation_reviews.py:875-921 | records missing disagreements and approves by the intersection of the adjudicated labels |
| ReviewInvariant.LatestLabelIsLatest | apps/api/src/ai_qa_copilot_api/evaluation_reviews.py:1082-1108 | the latest label is one of the subject and role that none exceeds |
| ReviewInvariant.AppendDisagreementsKeepsSound | apps/api/src/ai_qa_copilot_api/evaluation_reviews.py:732-781 | recording a pair's differences keeps every store invariant |
| ReviewInvariant.AdjudicationLoopIsSound | apps/api/src/ai_qa_copilot_api/evaluation_reviews.py:857-871 | every prefix of the adjudication loop leaves a sound store |
| ReviewInvariant.AdjudicateIsSound | apps/api/src/ai_qa_copilot_api/evaluation_reviews.py:783-873 | adjudication keeps every store invariant, aborted or not |
| ReviewTheorems.EveryReachableStoreIsSound | apps/api/src/ai_qa_copilot_api/evaluation_reviews.py:586-921 | every store reachable by any requests satisfies the whole invariant |
| ReviewTheorems.EvidenceIsImmutable | apps/api/src/ai_qa_copilot_api/evaluation_reviews.py:586-921 | no request changes or removes recorded evidence |
| ReviewTheorems.EveryChainIsLinear | apps/api/src/ai_qa_copilot_api/evaluation_reviews.py:1008-1042 | per case, kind, subject and role the revisions are 1..n, each naming the one before as parent and changing its content |
| ReviewTheorems.RevisionsAreLinear | apps/api/src/ai_qa_copilot_api/evaluation_reviews.py:1082-1108 | the label that counts as latest is the end of that chain |
| ReviewTheorems.ReviewersAreSeparate | apps/api/src/ai_qa_copilot_api/evaluation_reviews.py:678-855 | independent and adjudicated labels are never by a reviewer of the labels they are linked to |
| ReviewTheorems.PacketIsBlind | apps/api/src/ai_qa_copilot_api/evaluation_reviews.py:651-676 | the independent reviewer's packet is the same for all primary judgments that could have been made |
| ReviewTheorems.ApprovalIsExact | apps/api/src/ai_qa_copilot_api/evaluation_reviews.py:875-921 | approval succeeds exactly when every material disagreement has an adjudication; the primary is approved exactly when the labels agree in judgment; otherwise the approved label is the one to which each disagreement has exactly one adjudication, by neither linked reviewer |
| ReviewTheorems.EveryApprovalIsFaithful | apps/api/src/ai_qa_copilot_api/evaluation_reviews.py:783-921 | the same over every run of the service |
| ReviewTheorems.AdjudicationOutcome | apps/api/src/ai_qa_copilot_api/evaluation_reviews.py:857-873 | exactly the disagreements before the first blank rationale get one adjudication each, and the request succeeds if and only if that is all of them |
| ReviewTheorems.BlankRationaleSticksThePair | apps/api/src/ai_qa_copilot_api/evaluation_reviews.py:857-871 | a filed adjudication leaves the pair adjudicated in part if and only if a blank rationale comes after an accepted one |
| ReviewTheorems.StuckForever | apps/api/src/ai_qa_copilot_api/evaluation_reviews.py:783-921 | a pair adjudicated in part is never adjudicated again and never approved, whatever is requested later |
| ReviewTheorems.RepeatIsRejected | apps/api/src/ai_qa_copilot_api/evaluation_reviews.py:783-855 | repeating an adjudication with the same labels, aborted or not, is rejected and changes nothing |
| ReviewStuck.HalfAnsweredSticks | apps/api/src/ai_qa_copilot_api/evaluation_reviews.py:783-873 | any adjudication that would be filed for a pair with two material disagreements sticks the pair when sent with one answer and blank rationales |
| ReviewStuck.ScenesGetStuck | apps/api/src/ai_qa_copilot_api/evaluation_reviews.py:586-873 | from the empty store, for any two reviews that differ in two material fields and any third reviewer: three attestations, two reviews, a comparison and such an adjudication end in a pair that stays stuck under all later requests |
| ReviewStuck.DisputeIsReady | apps/api/src/ai_qa_copilot_api/evaluation_reviews.py:586-873 | concrete reviewers, texts, digest and failure-analysis labels that meet every check |
| ReviewStuck.ARunGetsStuck | apps/api/src/ai_qa_copilot_api/evaluation_reviews.py:586-873 | the run with those values ends in a stuck pair, whatever is requested afterwards |
| ReviewStuck.RetryIsFiledExactly | apps/api/src/ai_qa_copilot_api/evaluation_reviews.py:783-855 | after an abort at the first rationale a repetition is filed if and only if it would have passed the checks at first and its validated labels differ from those already filed |
| LabelCompleteness.ValidateReview | apps/api/src/ai_qa_copilot_api/evaluation_label_completeness.py:538-581 | accepts exactly a well-attested review with an unseen revision, and then marks the revision as seen |
| LabelCompleteness.ValidateDisagreement | apps/api/src/ai_qa_copilot_api/evaluation_label_completeness.py:584-656 | accepts exactly an undisputed label or a properly adjudicated one |
| LabelCompleteness.ValidateLabel | apps/api/src/ai_qa_copilot_api/evaluation_label_completeness.py:209-283 | accepts exactly a label that meets its case, its mode and its reviews, with fresh revisions |
| LabelCompleteness.ValidateLabels | apps/api/src/ai_qa_copilot_api/evaluation_label_completeness.py:205-283 | accepts exactly when all labels are acceptable and no revision occurs twice over all reviews; counts the selected independent reviews per split |
| LabelCompleteness.Index | apps/api/src/ai_qa_copilot_api/evaluation_label_completeness.py:457-535 | an index is built exactly from mappings with distinct, non-blank identifiers |
| LabelCompleteness.ValidateEvent | apps/api/src/ai_qa_copilot_api/evaluation_label_completeness.py:351-411 | accepts exactly a lawful holdout access; fails for want of a label exactly when everything before the lookup is in order and the case has none |
| LabelCompleteness.ValidateHoldoutAccess | apps/api/src/ai_qa_copilot_api/evaluation_label_completeness.py:324-429 | accepts exactly a lawful log that covers the selected holdout cases; fails for want of a label exactly at the first event that is not in order, if it looks one up |
| LabelCompleteness.Verify | apps/api/src/ai_qa_copilot_api/evaluation_label_completeness.py:53-321 | accepts exactly the evidence that meets the global specification, and summarizes it; fails with a missing key exactly when a lawful access names a case without a label |
| LabelCompleteness.CoverageIsExact | apps/api/src/ai_qa_copilot_api/evaluation_label_completeness.py:285-291 | accepted labels cover the suite, each case once |
| LabelCompleteness.FinalsAreOwnReviews | apps/api/src/ai_qa_copilot_api/evaluation_label_completeness.py:538-656 | all revisions are distinct, each final revision is a review of its own case and of no other, and internal mode makes it the primary one |
| LabelCompleteness.AcceptedLabelIsFinal | apps/api/src/ai_qa_copilot_api/evaluation_label_completeness.py:584-656 | an adjudicated final has three different reviewers; without adjudication the final is the primary or the independent review |
| LabelCompleteness.SelectedIsReviewed | apps/api/src/ai_qa_copilot_api/evaluation_label_completeness.py:229-266 | in independent mode every selected case has a blind review by a second, attested person |
| LabelCompleteness.IndependentModeReviewsTwenty | apps/api/src/ai_qa_copilot_api/evaluation_label_completeness.py:293-299 | in independent mode ten selected cases are for validation and ten held out |
| LabelCompleteness.HoldoutsWereAccessedProperly | apps/api/src/ai_qa_copilot_api/evaluation_label_completeness.py:324-429 | every selected holdout case was assessed on this candidate, after its freeze, by its primary reviewer |
| ReleaseClaims.HeaderExactly | apps/api/src/ai_qa_copilot_api/evaluation_label_completeness.py:71-162 | the header is accepted exactly as written: schema, dataset, provenance with its digests, frozen candidate, and under the second schema a selection made beforehand and a mode with its disclosure |
| ReleaseClaims.SecondReviewsFitTheMode | apps/api/src/ai_qa_copilot_api/evaluation_label_completeness.py:205-266 | in independent mode every selected case has a label with a lawful second review; in internal mode no label has one, nor an adjudication |
| ReleaseClaims.ClaimsFitTheMode | apps/api/src/ai_qa_copilot_api/evaluation_label_completeness.py:274-312 | acceptance never claims more than the mode allows: eligible if and only if the review was independent, and in internal mode nothing but complete primary labels |
| ReleaseClaims.TruthfulClaimsPass | apps/api/src/ai_qa_copilot_api/evaluation_label_completeness.py:274-312 | of an otherwise accepted manifest any status passes that claims exactly that, and no other |
| ReleaseClaims.AttestationsExactly | apps/api/src/ai_qa_copilot_api/evaluation_label_completeness.py:484-512 | attestations are complete and named once; in internal mode none claims independence |
| ReleaseClaims.SelectionExactly | apps/api/src/ai_qa_copilot_api/evaluation_label_completeness.py:457-482 | the selection is exactly twenty different cases of the suite |
| ReleaseClaims.AccessExactly | apps/api/src/ai_qa_copilot_api/evaluation_label_completeness.py:346-411 | an access is accepted exactly with a named person, a time, one of the three purposes and different holdout cases; for labelling without a candidate, else for this one after its freeze and by the reviewer of each case |
| ReleaseClaims.SelectedHoldoutsWereOpened | apps/api/src/ai_qa_copilot_api/evaluation_label_completeness.py:412-428 | every selected holdout case was opened for the assessment by its primary reviewer, and in independent mode for the second review by its independent reviewer |
| ReleaseClaims.LabelExactly | apps/api/src/ai_qa_copilot_api/evaluation_label_completeness.py:205-266 | a label is accepted exactly with lawful reviews for its mode and an outcome that names an approved revision |
| ReleaseWitness.TruthfulInternalManifestPasses | apps/api/src/ai_qa_copilot_api/evaluation_label_completeness.py:53-321 | a concrete internal manifest with truthful status passes |
| ReleaseWitness.UnlabelledManifestCrashes | apps/api/src/ai_qa_copilot_api/evaluation_label_completeness.py:386-392 | without its labels the same manifest makes the validator fail with a missing key |
| Approvals.ApprovalRepository.Create | apps/api/src/ai_qa_copilot_api/execution_approvals.py:155-189 | inserts exactly when all constraints allow it; otherwise a conflict and no change |
| Approvals.ApprovalRepository.Get | apps/api/src/ai_qa_copilot_api/execution_approvals.py:191-210 | returns the approval only within its own project |
| Approvals.ApprovalRepository.Consume | apps/api/src/ai_qa_copilot_api/execution_approvals.py:212-258 | row and answer of consumption equal the specification |
| Approvals.ConsumesExactlyTheValid | apps/api/src/ai_qa_copilot_api/execution_approvals.py:212-258 | an approval is granted exactly if it matches, is intact, unused and unexpired, at a time not before its approval |
| Approvals.CreateConflictsExactly | apps/api/src/ai_qa_copilot_api/execution_approvals.py:155-191 | creation reports a conflict exactly when the row violates any constraint, and then changes nothing |
| Approvals.ConsumeIsUnavailableExactly | apps/api/src/ai_qa_copilot_api/execution_approvals.py:212-258 | consumption never conflicts; of a matching row it is unavailable exactly when the row is not intact, or is unused and the clock is before its approval |
| ApprovalContents.CreationExactly | apps/api/src/ai_qa_copilot_api/execution_approvals.py:155-191 | a creation is filed exactly if its project, hash, texts and source are admissible and the project has no other approval of the plan; it answers the creation's own project, plan, approver, source and comment, valid for 600000000 microseconds |
| ApprovalContents.GrantExactly | apps/api/src/ai_qa_copilot_api/execution_approvals.py:212-258 | the claim of its plan is answered that same approval with only the time of use set, exactly within those ten minutes |
| ApprovalContents.IntactExactly | apps/api/src/ai_qa_copilot_api/execution_approvals.py:391-425 | a row is answered exactly if its snapshot reads back as the plan it names, it names somebody and its times are in order; the answer is the row, field by field |
| ApprovalContents.TablesStayDeclared | apps/api/src/ai_qa_copilot_api/documents.py:463-486 | under any interleaving every row is as the table declares it, and a project has one approval per plan identifier and per hash |
| ApprovalContents.GrantsAnswerTheirRows | apps/api/src/ai_qa_copilot_api/execution_approvals.py:212-258 | under any interleaving a granted approval is the one its row holds |
| Approvals.CreatedThenConsumedOnce | apps/api/src/ai_qa_copilot_api/execution_approvals.py:155-258 | a created approval can be consumed once, within ten minutes, and never again |
| Approvals.StepKeepsInv | apps/api/src/ai_qa_copilot_api/execution_approvals.py:212-258 | every step of any worker keeps the table constraints and the one-grant-per-row invariant |
| Approvals.ApprovalsAreUsedOnce | apps/api/src/ai_qa_copilot_api/execution_approvals.py:212-258 | under any interleaving at most one worker is granted an approval per project and plan identifier, and per project and plan hash |
| Approvals.GrantsAreTimely | apps/api/src/ai_qa_copilot_api/documents.py:463-513 | a granted approval was consumed at or after approval and strictly before expiry, and the row says so |
| Approvals.ConsumptionIsFinal | apps/api/src/ai_qa_copilot_api/documents.py:463-513 | rows are never removed or edited, and a time of consumption never changes |
| Approvals.LosingMeansAnotherWon | apps/api/src/ai_qa_copilot_api/execution_approvals.py:236-256 | a worker that held a valid approval is refused it exactly if another worker was granted it |
| CandidateExecutor.B1CandidateExecutor.Execute | apps/api/src/ai_qa_copilot_api/b1_candidate_executor.py:272-316 | state, files and answer of one execution equal the specification; the reservation is always given up |
| CandidateExecutor.B1CandidateExecutor.CallAndStore | apps/api/src/ai_qa_copilot_api/b1_candidate_executor.py:284-312 | budget, adapter call, exclusive creation and receipt, in order |
| CandidateExecutor.B1CandidateExecutor.Receipts | apps/api/src/ai_qa_copilot_api/b1_candidate_executor.py:267-270 | all receipts, in the order of their case identifiers |
| CandidateExecutor.Disk.CreateExclusively | apps/api/src/ai_qa_copilot_api/b1_candidate_executor.py:292-298 | creation fails on any existing file and otherwise writes exactly the content |
| CandidateExecutor.AloneIsOneInterleaving | apps/api/src/ai_qa_copilot_api/b1_candidate_executor.py:272-316 | the sequential execution is the protocol of a single thread |
| CandidateExecutor.StepKeepsInv | apps/api/src/ai_qa_copilot_api/b1_candidate_executor.py:272-316 | every step of any thread, and any file created from outside, keeps the invariant |
| CandidateExecutor.CasesAreExclusive | apps/api/src/ai_qa_copilot_api/b1_candidate_executor.py:276-284 | of two executions of a case at most one holds it and at most one ever succeeds |
| CandidateExecutor.NoReservationIsLeaked | apps/api/src/ai_qa_copilot_api/b1_candidate_executor.py:313-316 | when no thread is running nothing is reserved |
| CandidateExecutor.ReceiptsBindCreatedFiles | apps/api/src/ai_qa_copilot_api/b1_candidate_executor.py:292-310 | a receipt's digest is that of a file this executor created itself, unchanged, and no two receipts share a file |
| CandidateExecutor.ReceiptsAreFinal | apps/api/src/ai_qa_copilot_api/b1_candidate_executor.py:276-310 | once a case has a receipt it keeps it and no later execution of the case reaches an adapter |
| CandidateExecutor.SuccessStaysWithinBudget | apps/api/src/ai_qa_copilot_api/b1_candidate_executor.py:338-452 | a successful execution has exactly the configured side effects at no more than the configured cost |
| CandidateExecutor.CallsFitTheirAdapter | apps/api/src/ai_qa_copilot_api/b1_candidate_executor.py:338-375 | the analysis adapter only sees cases with exactly one permitted model call, the policy adapter only cases with none |
| CandidateOutcomes.AdaptersSeeExecutableCases | apps/api/src/ai_qa_copilot_api/b1_candidate_executor.py:318-400 | an adapter only ever sees cases configured with their own effects and cost, of its own run mode and model calls, and with their sources in order |
| CandidateOutcomes.ExecutionExactly | apps/api/src/ai_qa_copilot_api/b1_candidate_executor.py:272-316 | an execution succeeds exactly if the case is mapped and free, executable, answered within its budget and written to the end; it then leaves the output, one receipt and the observation with its boundary stripped, and else no receipt and at most a partial file |
| CandidateOutcomes.ReceiptsNameTheirSubjects | apps/api/src/ai_qa_copilot_api/b1_candidate_executor.py:298-308 | under any interleaving a receipt names the first subject configured for its case, the path of the case and the digest of the file there |
| EvaluationRunner.ValidationIsIdempotent | apps/api/src/ai_qa_copilot_api/evaluation_runner.py:241-285 | validating a validated observation changes nothing |
| EvaluationRunner.ExecutePending | apps/api/src/ai_qa_copilot_api/evaluation_runner.py:154-176 | succeeds exactly when every case does, with one result per completion, in completion order |
| EvaluationRunner.ResumeResults | apps/api/src/ai_qa_copilot_api/evaluation_runner.py:179-223 | the resume loop equals its specification, with every rejection |
| EvaluationRunner.IndexResults | apps/api/src/ai_qa_copilot_api/evaluation_runner.py:138-139 | the index holds results under their own case identifiers |
| EvaluationRunner.Complete | apps/api/src/ai_qa_copilot_api/evaluation_runner.py:122-139 | pending cases run within the budget and merge with the resumed ones in the order of the selection |
| EvaluationRunner.RunEvaluationCases | apps/api/src/ai_qa_copilot_api/evaluation_runner.py:81-151 | produces the specified run for every order of completion, and fails only when there is none |
| EvaluationRunner.RunIsUnique | apps/api/src/ai_qa_copilot_api/evaluation_runner.py:81-151 | the run is determined by its inputs; no order of completion enters |
| RunOutcomes.ObservationExactly | apps/api/src/ai_qa_copilot_api/evaluation_runner.py:241-285 | an observation is accepted exactly with a boundary, the very effect names with non-negative integers, a non-negative cost and texts that are non-blank and different once stripped; it keeps everything, texts stripped one by one |
| RunOutcomes.ProducedResultsAreAnswers | apps/api/src/ai_qa_copilot_api/evaluation_runner.py:81-238 | every result of a run is the executor's own answer to that case, kept so, or taken over from the earlier report for the same version and digest |
| RunOutcomes.ResumesExactly | apps/api/src/ai_qa_copilot_api/evaluation_runner.py:179-223 | a report is resumed exactly if no selected case in it changed, repeats or has an improper observation |
| RunOutcomes.RunsExactly | apps/api/src/ai_qa_copilot_api/evaluation_runner.py:81-177 | a run is produced if and only if limits, selection, artifacts, earlier report and budget are in order and every case not reported is answered properly |
| RunOutcomes.SelectionKeepsOrder | apps/api/src/ai_qa_copilot_api/evaluation_runner.py:105-112 | selecting keeps the order of the suite |
| RunOutcomes.OrdersArePermutations | apps/api/src/ai_qa_copilot_api/evaluation_runner.py:154-177 | every order of completion of the pending cases is considered |
| EvaluationRunner.FaithfulIsResumed | apps/api/src/ai_qa_copilot_api/evaluation_runner.py:179-223 | a faithful report is resumed in full, with its observations unchanged |
| EvaluationRunner.ResumingIsFaithful | apps/api/src/ai_qa_copilot_api/evaluation_runner.py:115-151 | resuming executes exactly the cases that are new and reports what a fresh run would |
| EvaluationRunner.ChainRefinesFreshRun | apps/api/src/ai_qa_copilot_api/evaluation_runner.py:81-223 | a chain of resumed runs over growing selections ends in the report of one fresh run, but for which results were reused |
| EvaluationRunner.EachCaseRunsOnce | apps/api/src/ai_qa_copilot_api/evaluation_runner.py:115-136 | over such a chain every selected case is executed exactly once |
| EvaluationRunner.ChainCostsAddUp | apps/api/src/ai_qa_copilot_api/evaluation_runner.py:115-128 | the declared costs of what the chain executed add up to those of the final selection |
| RunReport.ReportRoundTrip | apps/api/src/ai_qa_copilot_api/evaluation_runner.py:357-513 | decoding undoes encoding for every well-formed run |
| RunReport.ProducedRunsRoundTrip | apps/api/src/ai_qa_copilot_api/evaluation_runner.py:68-77 | every run produced from a loaded suite, resumed or not, is read back exactly |
| RunReport.DecodedRunsRoundTrip | apps/api/src/ai_qa_copilot_api/evaluation_runner.py:357-513 | writing out and reading back what was read gives the same run |
| ReportReading.ReportsRead | apps/api/src/ai_qa_copilot_api/evaluation_runner.py:357-513 | a report is read if and only if it has exactly its fields, the schema version, and texts, digests, amounts and counts where they belong, and repeats no case; what is read is what it says, texts stripped |
| Instances.ServiceReportsRoundTrip | apps/api/src/ai_qa_copilot_api/evaluation_runner.py:348-513 | the same with the report's own field names, schema version and str.strip() |
| Instances.ReportSays | apps/api/src/ai_qa_copilot_api/evaluation_runner.py:68-77 | the report says under each of its names what it is named for |
| Instances.ReadReportHasItsFields | apps/api/src/ai_qa_copilot_api/evaluation_runner.py:357-382 | a report that is read has exactly the fields of a report |
| Manifest.CanonicalIsIdempotentExactlyWithoutCrCrLf | scripts/generate_manifest.py:22-25 | normalizing line endings twice equals once if and only if the bytes hold no CR CR LF |
| Manifest.CrCrLfIsReadTwice | scripts/generate_manifest.py:22-25 | the bytes CR CR LF become CR LF, and LF when normalized again |
| Manifest.CanonicalKeeps | scripts/generate_manifest.py:22-25 | normalizing leaves bytes alone if and only if they hold no CR LF |
| Manifest.FileIndex | scripts/generate_manifest.py:87-108 | no problem is reported exactly when every record is an object with a path of its own, and then the index holds each under its path |
| Manifest.CompareFiles | scripts/generate_manifest.py:143-164 | no difference exactly when every expected entry is matched and no other is listed |
| Manifest.ManifestDifferences | scripts/generate_manifest.py:111-172 | no difference is reported exactly for a clean manifest |
| ManifestReports.FileDifferencesExactly | scripts/generate_manifest.py:87-160 | each kind of difference is reported of the files if and only if it is there: a record that is no object, one without a path, a repeated path, paths out of order, an expected path not listed, another byte count, another digest, extra fields, a path not selected |
| ManifestReports.DifferencesExactly | scripts/generate_manifest.py:110-172 | of the manifest as a whole nothing else is reported but the two header fields and fields of its own |
| Manifest.CleanFilesAlign | scripts/generate_manifest.py:111-172 | sorted, without repetition and with the same paths, the entries stand in the same order |
| Manifest.NoDifferenceMeansEqual | scripts/generate_manifest.py:111-172 | a manifest is clean if and only if it equals the expected one as a Python value |
| Instances.StoredManifestIsExpected | scripts/generate_manifest.py:110-172 | the same with the manifest's own field names |
| Manifest.TrueIsTakenForOne | scripts/generate_manifest.py:149-154 | a byte count of one stored as true is not noticed, so the equality is Python's and not that of the JSON text |
| Redaction.RedactedValue | apps/api/src/ai_qa_copilot_api/execution_evidence.py:173-186 | the recursive redaction equals its specification |
| Redaction.RedactedMapping | apps/api/src/ai_qa_copilot_api/execution_evidence.py:156-170 | the loop over a mapping equals its specification |
| Redaction.AssertionResults | apps/api/src/ai_qa_copilot_api/execution_evidence.py:90-102 | projects exactly lists of mappings, each redacted |
| Redaction.LongerNamesStaySensitive | apps/api/src/ai_qa_copilot_api/execution_evidence.py:203-205 | a name that contains a sensitive one is sensitive, whatever surrounds it, also where lowering a sigma depends on that |
| Redaction.SensitiveExactly | apps/api/src/ai_qa_copilot_api/execution_evidence.py:203-205 | a name is sensitive exactly if its lower-case form spells one of the words somewhere, an underscore counting as a dash |
| Redaction.RedactedUrlsAgree | apps/api/src/ai_qa_copilot_api/execution_evidence.py:208-243 | two URLs that read back as they are shown look alike if and only if they differ in nothing but sensitive query values and fragments, or are both hidden |
| Redaction.ReadsBackExactly | apps/api/src/ai_qa_copilot_api/execution_evidence.py:208-243 | which URLs these are: without a user, they are parsed again, once shown, into the parts that were shown |
| Redaction.RedactedTreesAgree | apps/api/src/ai_qa_copilot_api/execution_evidence.py:156-243 | two trees whose shown URLs read back redact to the same tree if and only if they differ in nothing but secrets |
| Redaction.RedactionIsIdempotent | apps/api/src/ai_qa_copilot_api/execution_evidence.py:156-243 | redacting twice equals redacting once, for trees whose shown URLs read back |
| Redaction.OpenLocationsAreKept | apps/api/src/ai_qa_copilot_api/execution_evidence.py:156-186 | outside of what is replaced keys, lengths and scalar values are as before |
| Redaction.NoSecretIsLeft | apps/api/src/ai_qa_copilot_api/execution_evidence.py:156-186 | no value under a sensitive name is left at any location |
| Redaction.NoPairedSecretIsLeft | apps/api/src/ai_qa_copilot_api/execution_evidence.py:173-186 | nor is the second element of a pair under a sensitive name |
| Citations.CitationRepository.CreateFromSelectedCandidate | apps/api/src/ai_qa_copilot_api/citations.py:125-171 | exactly when it answers, inserts or rejects, and the one row it can add |
| Citations.CitationRepository.CreateFromSelectedCandidates | apps/api/src/ai_qa_copilot_api/citations.py:173-252 | all or nothing: on success one citation per requested chunk in request order, on failure no change |
| Citations.CitationRepository.ListMissing | apps/api/src/ai_qa_copilot_api/citations.py:205-220 | the chunks without a citation, in request order |
| Citations.EveryRequestIsAnswered | apps/api/src/ai_qa_copilot_api/citations.py:233-248 | after a successful batch the final lookup never misses |
| Citations.BatchIsFaithful | apps/api/src/ai_qa_copilot_api/citations.py:173-252 | keys are kept, earlier citations stay, and each citation has its chunk's version, location and project |
| CitationContents.BatchCites | apps/api/src/ai_qa_copilot_api/citations.py:233-370 | every citation a batch answers has the text of the requested chunk, the document it is a version of and its place there |
| CitationContents.AddedRowsAreRequested | apps/api/src/ai_qa_copilot_api/citations.py:217-232 | every row a batch adds is of a requested chunk that had no citation, at that moment and under one of the new identifiers |
| CitationContents.BatchSucceedsExactly | apps/api/src/ai_qa_copilot_api/citations.py:173-252 | a valid batch succeeds if and only if the identifiers for its missing chunks are new and different |
| CitationContents.SelectedExactly | apps/api/src/ai_qa_copilot_api/citations.py:283-306 | a chunk can be cited exactly if the trace selected it and its document is of the trace's own project |
| Citations.BatchIsIdempotent | apps/api/src/ai_qa_copilot_api/citations.py:173-252 | asking again adds nothing |
| Citations.BatchOfOne | apps/api/src/ai_qa_copilot_api/citations.py:125-252 | a batch of one does what the single operation does |
| Citations.ValidRequestsSucceed | apps/api/src/ai_qa_copilot_api/citations.py:173-252 | in a store filled only by these operations a valid request with fresh identifiers succeeds and leaves such a store |

## Left out

- SQL sessions, engines and real transaction failures: tables are maps with the declared constraints, a transaction is one step, and a conditional update is atomic.
- Column length limits of the database, which would make some inserts unavailable rather than conflicting.
- Identifiers: in the review store an identifier is the position of its record, that is, never handed out twice; the approvals and citations tables take arbitrary identifiers and reject repeated ones.
- Files, YAML, JSON text, HTTP and clocks: parsed values, responses and times are arbitrary inputs. A ledger write never fails.
- Non-string mapping keys, which YAML allows and the validators reject, do not exist in the JSON trees.
- Not-a-number and infinite floats: numbers are integers or exact reals.
- `Decimal` arithmetic to 28 digits: rates, costs and tolerances are exact.
- The `calibration_ratio` and provider-identity fields of a ledger record, which nothing reads back except for equality.
- Digits other than ASCII in pointer tokens, which `isdecimal` also accepts.
- Creation times of disagreements and adjudications, label digests and schema-version constants of review labels, on which no decision depends.
- A crash in the middle of `record_material_disagreements`: it is one step.
- In the offline validator, the case identifiers of an access are compared as values rather than as printed text, which accepts the same events because anything but a text is rejected; which of several faults a rejection names is not modelled, except for a missing label, where the code raises a `KeyError`.
- In the candidate executor, other programs may create files at any time but not change or delete them.
- Case selection of the runner is by a set of identifiers; the filters by split, category, tag and criticality choose such a set.
- EvaluationRunner.ExecutePending: which error is reported when several cases fail depends on the order of completion, as in the code; only success is independent of it.
- Redaction.RedactedUrlsAgree: is about URLs that read back, once shown, as the parts that were shown, without a user; the library does not promise that for every text. The two theorems about trees ask it of the URLs in the tree that are shown.
- Parser, indexing and execution jobs, authorization, audit, demo and scoring modules, the fixed corpora and the documentation checks other than JSON Pointers: their transition code is elsewhere or would only add easy members.
- The web interface.
