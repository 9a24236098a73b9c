# Mokalemeban, modelled and proved in Dafny

Mokalemeban transcribes sales calls, has a model analyse them, lets people correct and review the
result, and publishes it. This project models the parts of it that decide something, and proves
what they keep: for every input, every interleaving and every run.

| file | what it models |
|---|---|
| `Basics.dfy`, `Wrappers.dfy` | rounding, the order of strings, optional values and results |
| `Alignment.dfy`, `Scoring.dfy` | the edit-distance alignment behind the word error rate, and the scores built on counters |
| `Metrics.dfy` | the interval sweep that measures talk, silence and overlap |
| `Transcript.dfy`, `Transcripts.dfy` | transcript items, stored rows, human corrections, snapshots |
| `Evidence.dfy` | validation of the provider's analysis against the transcript |
| `Pipeline.dfy`, `Processing.dfy` | the status machine, error classification, retries; a call's status, events and errors |
| `Reviews.dfy`, `Followups.dfy` | analysis versions, review cases, publication; the follow-up task and drafts |
| `Records.dfy`, `Lifecycle.dfy` | one transaction per function; every interleaving of transactions on the calls of a tenant |
| `Session.dfy` | the worker task and the endpoints as they run, on a working and a committed copy of the rows |
| `Watcher.dfy`, `Traversal.dfy` | the recording watchers: stability, deduplication, scans, the bounded remote listing |
| `Paths.dfy`, `Backup.dfy`, `Restore.dfy` | the backup and restore scripts over a file system of files and directories |
| `LoadRunner.dfy` | the load harness: workers sharing a counter, in every interleaving |

`dafny verify dfyconfig.toml` checks everything.

## How the lifecycle is modelled

`Lifecycle.System` holds the committed rows of a tenant and the memory of every worker run in flight.
A step is one transaction: the start of a run, its two intermediate commits, its last commit, its
exception handler, a lost worker, a segment edit, a role edit, a manual snapshot, a processing
action, a queued analysis, one of the five review actions. Runs interleave freely, also on one call:
a run's own status, its copies of the retry counter, the last stage, the outcome and the score, and its
transcribed items can be overtaken by other transactions, and the statements hold all the same. What a transaction reads of the database it reads
at its commit; the stored rows a reanalysis works on are read and written in one transaction
(backend/app/tasks.py:456-589), so this goes for them too, and with no other writer on the call it makes
no difference when in between they are read (`Lifecycle.UndisturbedReanalysis`). `Sessions.Session` is the code's own form: a
`working` copy that methods change step by step, `Commit` and `Rollback`. Its methods are proved to
commit exactly the steps of the machine, so what is proved of the machine holds of them.

The provider's output, the role heuristics and the glossary are arbitrary. Text normalisation,
token sets, the similarity ratio, SHA-256, the secret scan and JSON are deterministic functions
passed in; a theorem that needs a law of them says so (`Backup.RoundTrips`).

## What turned out to differ from what is promised

- Policy approval leaves an older `published` version as it is (backend/app/services/versioning.py:202-213), so
  "at most one published version" needs a condition: `Lifecycle.AtMostOnePublished` gives it for every run,
  `Reviews.PolicyApprovalOrphans` for one approval, and `Reviews.TwoPublished` is a call with two.
- A failure before the first commit can make the exception handler itself raise. `Processing.HandlerRaisesExactly`
  says when; after the first commit and with no other writer on the call it never does
  (`Lifecycle.FailureIsHandled`), but it does for a call that was quarantined meanwhile (`Lifecycle.QuarantinedWhileOpen`).
- An endpoint that sets a call's status in the middle of a run leaves its open event open, so that a call can be in a
  final status with an event under way: `Lifecycle.OpenExactly` says when. A failed or rescheduled call has none
  (`Lifecycle.CommittedProgress`).
- A request for changes leaves the reviewed pointer on a version whose approval it withdraws
  (`Reviews.ApprovalWithdrawn`); `Lifecycle.ReviewedPointer` says when the pointer is right.
- A run that overlaps another one on its call writes a column only where the value differs from its own copy, so the
  call can be left with the other's outcome or score next to a latest analysis that says otherwise
  (`Lifecycle.FinishColumns`); undisturbed it is not (`Lifecycle.UndisturbedColumns`).
- Evidence under the risk flag, under empty lists and under any key that names another attribute of the
  customer object, such as "json" or "copy", is stored as supported without being checked
  (backend/app/tasks.py:316-340): `Evidence.UncheckedEvidenceStored` plants some, and
  `Evidence.StoredEvidenceExactly` says of what the provider returned exactly when every stored row is right.
- Evidence is checked against the item at its index but linked to the row at that position. In a reanalysis these agree
  for every index exactly when the positions have no gap (`Records.ReanalysisLinksExactly`), and
  `Records.GapLinksAnotherRow` reaches a gap. After transcription the positions agree (`Records.FullRunLinks`), but a
  corrected row keeps its own text: the linked rows, and the transcript version the analysis refers to, hold the text
  that was checked exactly when the corrections agree with it (`Records.FullRunTextExactly`). In
  `Records.QuoteOfAnotherText` they do not.
- A second copy of a known recording is recognised as a duplicate in the mounted folder (`Watcher.LocalVerdict`), as
  docs/ISSABEL_INTEGRATION.md:124-129 expects there. On the SFTP server the source marks it too
  (backend/app/services/watcher.py:306-309), but the commit of `mark_duplicate` always breaks
  the unique hash, so the scan raises (`Watcher.RemoteVerdict`), and so does every later scan that lists the copy,
  before any file sorted behind it is looked at (`Watcher.KnownContentStopsEveryScan`, reached in `Watcher.SecondCopyBlocks`).
- The conflict check of a restore does not see a file that stands where a directory is needed, so a restore without
  `--overwrite` can fail half way. `Restore.RestoredExactly` and `Restore.FailedCopyUnchangedExactly` say when; `Restore.HalfRestored` is one.
- With `--overwrite`, a directory at a destination takes the file under its own name (`Restore.OverwriteIntoDirectory`);
  `Restore.OverwrittenExactly` says when overwriting does what it should.
- Files named `manifest.json` are archived and restored but have no digest in the manifest (`Backup.InventoryExactly`),
  so a change of one goes unnoticed (`Backup.AlterationAcceptedExactly`).

## Model

| member | source | states |
|---|---|---|
| Alignment.FillTables | evaluation/run_evaluation.py:85-108 | both tables hold, for every pair of prefixes, the distance and the move of the take-the-diagonal-on-match recurrence |
| Alignment.FillRow | evaluation/run_evaluation.py:98-108 | one row from the rows above it: a match takes the diagonal, otherwise the cheapest of the three moves |
| Alignment.WalkBack | evaluation/run_evaluation.py:110-137 | the backward walk ends, never meets a malformed move, and returns the traced script |
| Alignment.Align | evaluation/run_evaluation.py:85-137 | the script spells both inputs, its entries that are not equal number the distance, and no edit script is cheaper |
| Alignment.NoScriptIsCheaper | evaluation/run_evaluation.py:98-108 | every edit script between two sequences costs at least the distance, although a match is never compared with the other moves |
| Alignment.TraceIsScript | evaluation/run_evaluation.py:110-137 | the traced entries form an edit script of exactly that cost whose substitutions pair different tokens |
| Alignment.LastEntry | evaluation/run_evaluation.py:98-137 | which script is reported: a match is always taken, and of equally cheap edits a substitution comes before a deletion and a deletion before an insertion |
| Alignment.PairingCost | evaluation/run_evaluation.py:99-102 | pairing two more tokens costs nothing on a match and at most one otherwise: the lemma that makes the shortcut sound |
| Alignment.DistanceSymmetric | evaluation/run_evaluation.py:89-108 | the distance is symmetric |
| Alignment.DistanceZeroIffEqual | evaluation/run_evaluation.py:89-108 | it is zero exactly for equal inputs |
| Alignment.DistanceAtMostLonger | evaluation/run_evaluation.py:89-108 | it is at most the length of the longer input |
| Alignment.ComposeScripts | evaluation/run_evaluation.py:89-108 | two scripts through a middle sequence compose to one that costs no more than both |
| Alignment.TriangleInequality | evaluation/run_evaluation.py:89-108 | it obeys the triangle inequality |
| Scoring.ErrorRateMeaning | evaluation/run_evaluation.py:140-143 | the error rate is zero exactly for a perfect transcript, at most one when the hypothesis is not longer, and the distance per reference token |
| Scoring.F1Ratio | evaluation/run_evaluation.py:150-178 | F1 is twice the matches over both totals, empty sides included |
| Scoring.PerfectF1 | evaluation/run_evaluation.py:150-178 | F1 is one exactly when both sides normalise to the same multiset |
| Scoring.PerfectPrecisionAndRecall | evaluation/run_evaluation.py:150-167 | precision is one exactly when nothing predicted was unexpected, recall exactly when nothing expected was missed, empty sides included |
| Scoring.PerfectScore | evaluation/run_evaluation.py:146-178 | for two lists: F1 is one exactly when precision and recall both are, and exactly when the lists hold the same normalised items |
| Scoring.ScoreExactly | evaluation/run_evaluation.py:146-178 | precision is the matched share of the predicted items, recall that of the expected ones, F1 twice the matches over both totals, and what each is beside an empty side |
| Scoring.NormalizedCounts | evaluation/run_evaluation.py:146-147 | an item counts as often as it is given, unless it normalises to nothing |
| Scoring.RebuiltCounters | evaluation/run_evaluation.py:313-319 | scoring the rebuilt placeholder lists gives back the counters they were made of |
| Scoring.SumScoresPools | evaluation/run_evaluation.py:313-319 | the aggregate counters are the totals of all samples |
| Metrics.Sweep | backend/app/services/metrics.py:47-56 | silence is the measure of the gaps of the union, overlap is total talk minus the measure of the union, and talk + silence = hull + overlap |
| Metrics.SweepSorted | backend/app/services/metrics.py:49-56 | the same of the sorted list, by one pass with a running end |
| Metrics.SweepStep | backend/app/services/metrics.py:51-56 | what one more interval adds to the covered cells, to the gaps and to the overlap |
| Metrics.Tally | backend/app/services/metrics.py:36-45 | turns, talk, longest turn and questions per speaker, and the timed intervals in order |
| Metrics.CalculateMetrics | backend/app/services/metrics.py:29-75 | the report describes its segments by measures and per-speaker sums, with nulls exactly where nothing is timed |
| Metrics.SpeakerReport | backend/app/services/metrics.py:29-75 | of each speaker: the number of the segments, the positions of either question mark in them, the sum of their durations, the share of all talk, and a longest turn that is at least every duration and one of them, absent when none is positive |
| Metrics.CallReport | backend/app/services/metrics.py:47-62 | of the call: the last end, the total talk, and silence and overlap by the seconds that no timed turn or more than one covers; nothing without a timed turn |
| Metrics.SpeakersShareAllTalk | backend/app/services/metrics.py:48 | the speakers' talk adds up to the total length of the timed intervals |
| Metrics.PermutationInvariant | backend/app/services/metrics.py:29-75 | two descriptions of the same segments in any order are the same report |
| Metrics.TalkAndSilenceFillTheCall | backend/app/services/metrics.py:58-62 | talk plus silence is last end minus first start plus overlap |
| Transcript.NormalizeSegments | backend/app/services/metrics.py:9-26 | keeps the turns whose stripped text is not empty, renumbered |
| Transcript.NormalizedDense | backend/app/services/metrics.py:9-26 | positions are dense whatever the provider returned, and every text is stripped and not empty |
| Transcript.NormalizedExactly | backend/app/services/metrics.py:9-26 | the items are, in order, exactly the turns with more than space in their text, each with its speaker, its times and its stripped text |
| Transcript.StripIdempotent | backend/app/tasks.py:240-242 | stripping twice is stripping once |
| Transcript.StripExactly | backend/app/services/metrics.py:12-14 | only space is taken away, at both ends, and all of it |
| Transcript.RolesApplied | backend/app/services/roles.py:86-95 | every turn of a named speaker gets the role of that speaker, all others none, and nothing else of a turn changes but the confidence |
| Transcripts.SnapshotTranscript | backend/app/services/versioning.py:37-90 | a new version, numbered one above the highest, holds a copy of every live row |
| Transcripts.UpsertSegments | backend/app/tasks.py:216-246 | the rows afterwards, or the refusal of two items at one new position |
| Transcripts.WriteItems | backend/app/tasks.py:226-242 | item by item: what a corrected row keeps and what every row takes over |
| Transcripts.DeleteUnnamed | backend/app/tasks.py:243-246 | exactly the uncorrected rows that no item names go |
| Transcripts.LastItemCounts | backend/app/tasks.py:226-242 | of several items for one position the last one is what the row is written from |
| Transcripts.UpdateSpeakerRoles | backend/app/main.py:1159-1213 | touches exactly the rows whose role changes, records each, and refuses when there is none |
| Transcripts.SnapshotKeeps | backend/app/services/versioning.py:37-90 | a snapshot keeps the transcript invariant, adds exactly one version, of its origin and with the next number, and changes no earlier one |
| Transcripts.EditKeeps | backend/app/main.py:1096-1134 | so does a segment edit, which makes exactly its row corrected, with the stripped content and the canonical role |
| Transcripts.EditExactly | backend/app/main.py:1096-1134 | what the edit writes: content, normalised text, role and mark of the row, whose times, speaker and confidence stay, a correction, and one version; refused exactly when there is no such row |
| Transcripts.AssignRolesKeeps | backend/app/main.py:1159-1213 | so does a role edit |
| Transcripts.AssignedExactly | backend/app/main.py:1159-1213 | a role edit changes exactly the rows whose speaker gets another role, in the stated columns, and is refused exactly when there is none |
| Transcripts.WorkerWriteKeeps | backend/app/tasks.py:546-564 | so does a worker pass with any items |
| Transcripts.WorkerWriteMirrors | backend/app/tasks.py:216-246 | row by row: a corrected row keeps content and role, any other exists exactly where an item does and mirrors it; labels, times, confidence and normalised text follow the item on both |
| Transcripts.StoredItemsFit | backend/app/tasks.py:456-479 | the items a reanalysis builds from stored rows never collide |
| Transcripts.ReanalysisKeepsText | backend/app/tasks.py:456-487 | a reanalysis leaves positions, content, roles, labels and times of all rows unchanged, and forgets the confidence of the roles |
| Evidence.AcceptedWhateverTheRatio | backend/app/services/evidence.py:20-54 | over all similarity ratios: every one accepts a quote exactly when it is verbatim in its segment or enough of its tokens are, and in time; some one accepts it exactly when it has a segment, text on both sides and a fitting time |
| Evidence.ReasonExactly | backend/app/services/evidence.py:20-54 | which reason a check gives: no segment, no text, more than a second out of time, too little similarity, or support |
| Evidence.SimilarityExactly | backend/app/services/evidence.py:32-51 | the similarity it reports: none without segment or text, full where the quote occurs, else the larger of the ratio and the share of the tokens |
| Evidence.Filter | backend/app/services/evidence.py:57-61 | the supported quotes in order and a check for each quote |
| Evidence.KeptTwice | backend/app/services/evidence.py:57-61 | filtering twice is filtering once |
| Evidence.ValidateCollection | backend/app/services/evidence.py:78-87 | one collection: the claims that keep evidence, a note for each dropped one, all checks |
| Evidence.ValidateBody | backend/app/services/evidence.py:69-90 | the five collections, the recomputed score and the key moments |
| Evidence.ValidateFields | backend/app/services/evidence.py:122-161 | facts, lists, outcome and next action, each cleared without supported evidence |
| Evidence.ConcludeValidation | backend/app/services/evidence.py:162-167 | the closing note, the cap on the confidence, the notes without repeats |
| Evidence.ValidateAnalysisEvidence | backend/app/services/evidence.py:64-167 | the sanitised analysis, every check made, and that the result is clean |
| Evidence.FieldSurvivesExactly | backend/app/services/evidence.py:122-161 | a fact, list, outcome or next action is there afterwards exactly when it was and some quote given for it is supported, then with its value and, in order, exactly the supported quotes |
| Evidence.ClaimsSurviveExactly | backend/app/services/evidence.py:69-90 | the claims afterwards are, in order, exactly those with a supported quote, each with its supported quotes in order; and the key moments are the supported ones |
| Evidence.ChecksExactly | backend/app/services/evidence.py:64-167 | all checks come out supported exactly when every quote of a claim, of the key moments and of a present field is supported |
| Evidence.NotesExactly | backend/app/services/evidence.py:64-167 | the notes afterwards are the given ones and those of the removals that were made, by support alone |
| Evidence.ConfidenceExactly | backend/app/services/evidence.py:162-167 | the confidence is at most 0.49 exactly as soon as a note is a flagged one, and otherwise as given; no note is repeated |
| Evidence.FieldPointwise | backend/app/services/evidence.py:122-161 | what the whole loop over the fields does to each single field |
| Evidence.SanitizedIsClean | backend/app/services/evidence.py:64-167 | every surviving claim, fact, list, outcome and action has evidence, all of it supported, and the score is the rounded sum of the retained items |
| Evidence.CleanFixed | backend/app/services/evidence.py:64-167 | an analysis that needs no removal only has its score recomputed and its notes concluded |
| Evidence.SanitizeIdempotent | backend/app/services/evidence.py:64-167 | a second pass changes nothing and finds only supported evidence |
| Evidence.ConfidentMeansClean | backend/app/services/evidence.py:162-166 | a confidence above 0.49 afterwards certifies that the input was clean |
| Evidence.NothingRemovedAboveCap | backend/app/services/evidence.py:162-167 | any removal forces the confidence to 0.49 or less |
| Evidence.CleanKeepsConfidence | backend/app/services/evidence.py:162-166 | and only a removal does |
| Evidence.ScoreRecomputed | backend/app/services/evidence.py:88 | the score afterwards is the sum of the retained items' weighted scores to the nearest hundredth |
| Evidence.ScoreBound | backend/app/schemas.py:126-131 | the recomputed score is at most the claimed one plus the validator's tolerance, and at most 100.5 |
| Evidence.PersistedEvidenceSupported | backend/app/tasks.py:316-340 | every stored evidence row is supported exactly when the unchecked ones happen to be: those under the risk flag, empty lists and other attributes |
| Evidence.StoredEvidenceExactly | backend/app/tasks.py:316-340 | what is stored of a provider's analysis is rightly called supported exactly when its evidence under the risk flag, for its empty lists and under other attributes is |
| Evidence.StoredByKey | backend/app/tasks.py:316-340 | what is stored under each key, by the provider's analysis alone: the supported quotes of what is there, all quotes where nothing is checked, nothing otherwise |
| Evidence.UncheckedEvidenceStored | backend/app/tasks.py:316-340 | evidence filed under the risk flag or under the name of another attribute passes validation unchecked and is stored as supported |
| Pipeline.TransientExactly | backend/app/services/pipeline.py:183-226 | which exceptions are retried |
| Pipeline.ClassifiedExactly | backend/app/services/pipeline.py:183-226 | code and category of every exception: what the service, the stage and its time-out are recorded as |
| Pipeline.AllowedExactly | backend/app/services/pipeline.py:36-106 | from which statuses each status may be entered, and that nothing leads to the first ones |
| Pipeline.StageCodesAreUnlisted | backend/app/services/pipeline.py:183-226 | a stage's own unavailable code is never a listed one, so it gets the generic transient descriptor |
| Pipeline.DelayInBand | backend/app/services/pipeline.py:251-264 | retried exactly when transient and a slot is left; the delay is at least one second and within the jitter band of its slot |
| Pipeline.DelayNearest | backend/app/services/pipeline.py:251-264 | the delay is the time of its slot stretched by the drawn factor, to the nearest second and at least one |
| Pipeline.RetryBudget | backend/app/services/pipeline.py:251-264 | over any failures: at most one retry per remaining slot, and together at most the sum of the longest delays |
| Pipeline.DelaysInBands | backend/app/services/pipeline.py:251-264 | over any failures: the delays use slots of the schedule in rising order, none twice, each within the jitter band of its slot |
| Processing.EnterRecords | backend/app/tasks.py:143-191 | a transition adds exactly its own pair of statuses to those the events record; closing an event changes none |
| Processing.FinishRecords | backend/app/tasks.py:546-589 | the last commit adds its three |
| Processing.FailureRecords | backend/app/tasks.py:625-653 | the handler adds one pair: the stage it was called in and where it leaves the call |
| Processing.WholeRouteChains | backend/app/tasks.py:143-191 | the route of a whole run leads from the old status to the final one, step by step, all allowed |
| Processing.HandlerLands | backend/app/tasks.py:590-623 | from a status a worker commits the handler always reaches retry_scheduled or failed |
| Processing.HandlerRaisesExactly | backend/app/tasks.py:619-620 | when exactly the handler raises instead, from any status a call can be committed with |
| Processing.StepExactly | backend/app/tasks.py:143-191 | a transition is refused unless the table of statuses has it; otherwise it sets the status, adds one event, open unless its target closes it, and at most closes earlier ones |
| Processing.BeginExactly | backend/app/tasks.py:445-454 | from which statuses a run of each mode begins, and what it clears |
| Processing.FinishExactly | backend/app/tasks.py:546-589 | the last commit comes from analysis only; the counter is zero and the last stage its final status afterwards, unless the session's copies say so already |
| Processing.FinishAttempts | backend/app/tasks.py:143-191 | its three events carry the attempt of the session's copy, and the last is closed |
| Processing.FailureWrites | backend/app/tasks.py:590-653 | the handler records error, code, attempt and event, and a retry time exactly for a transient error with a slot left |
| Processing.RequeuedCanBegin | backend/app/main.py:2548-2562 | after a retry, reanalysis or full reprocessing is asked for a run of any mode can begin; only the last restarts the counter |
| Processing.QuarantineStops | backend/app/main.py:2543-2547 | nothing begins on a quarantined call, and no retry time is left |
| Processing.AllResolved | backend/app/main.py:2528-2542 | resolving marks every error and changes nothing else |
| Processing.AtMostOneOpen | backend/app/tasks.py:148-191 | at most one event is open, it is the newest, and its target does not end a run |
| Processing.BeginKeeps | backend/app/tasks.py:445-454 | the first commit of a run keeps that |
| Processing.FinishKeeps | backend/app/tasks.py:546-589 | so does the last one, which ends in review or completion |
| Processing.FailureKeeps | backend/app/tasks.py:590-653 | so does the handler |
| Processing.OperateKeeps | backend/app/main.py:2515-2565 | so does every processing action |
| Reviews.ReviewReasons | backend/app/services/versioning.py:93-131 | the reasons in order; none exactly when the version needs no review |
| Reviews.CreateAnalysisVersion | backend/app/services/versioning.py:134-214 | the version, its case, the pointers and the publication of a version without reasons |
| Reviews.NoReasonExactly | backend/app/services/versioning.py:104-131 | no reason means 50 human-published calls, confidence, support, clear roles, no critical outcome or fact, no sample |
| Reviews.ReasonsExactly | backend/app/services/versioning.py:93-131 | exactly the warranted reasons are listed, each once, in their order |
| Reviews.HumanPublishedExactly | backend/app/services/versioning.py:95-103 | a call counts for the pilot exactly when a human published some version of it |
| Reviews.CreatedExactly | backend/app/services/versioning.py:134-214 | what a new version stores, its next number, its case with the warranted reasons, and that it is published at once exactly when no reason is |
| Reviews.CreateVersionKeeps | backend/app/services/versioning.py:134-214 | a new version keeps the review invariant of its call |
| Reviews.ReviewActionKeeps | backend/app/services/versioning.py:217-285 | so does every review action that is allowed |
| Reviews.ActionAcceptedExactly | backend/app/main.py:2803-2840 | which answer each request gets, and from exactly which statuses each of the five actions is accepted |
| Reviews.ActionDoes | backend/app/services/versioning.py:226-285 | the status of case and version after each action, the event, the predecessor, the pointers and the publication, and that nothing else changes |
| Reviews.RejectionIsFinal | backend/app/services/versioning.py:226-246 | in any replay of events nothing follows a rejection |
| Reviews.RejectedNeverPublished | backend/app/services/versioning.py:226-285 | a rejected version reads rejected, and no publication names it |
| Reviews.PublishFollowsApprove | backend/app/services/versioning.py:237-243 | in any replay of events a publication ends the case and directly follows an approval |
| Reviews.PointerIsLastPublication | backend/app/services/versioning.py:202-213 | the published pointer names the version of the last publication, with the status of its kind |
| Reviews.PublishedExactly | backend/app/services/versioning.py:248-262 | which versions are published and which superseded, by the publication history alone |
| Reviews.AtMostOneExactly | backend/app/services/versioning.py:202-213 | at most one version is published exactly when at most one human publication was not followed by another |
| Reviews.WithoutPolicyOnlyPointer | backend/app/services/versioning.py:248-262 | without policy approvals the published version is the one pointed to |
| Reviews.PolicyApprovalOrphans | backend/app/services/versioning.py:202-213 | a policy approval keeps "only the pointed version is published" exactly when none is published |
| Reviews.TwoPublished | backend/app/services/versioning.py:134-285 | a publication, a policy approval and another publication leave two published versions |
| Reviews.ReviewedExactly | backend/app/services/versioning.py:226-262 | the reviewed version is approved or published exactly when no request for changes followed its last approval |
| Reviews.ApprovalWithdrawn | backend/app/services/versioning.py:226-262 | an approval and a request for changes leave the pointer on a version that is not approved |
| Reviews.PublishKeepsOnlyPointer | backend/app/services/versioning.py:248-262 | a human publication keeps it exactly when it held |
| Reviews.AutoPublishedUntouched | backend/app/services/versioning.py:157-213 | what the policy publishes lost nothing in validation and came after the pilot |
| Followups.CreateFollowups | backend/app/tasks.py:343-388 | adds the task and the drafts that are not there yet |
| Followups.FollowedKeeps | backend/app/tasks.py:343-388 | over any runs no task key and no draft repeats, none is dropped, and a wanted task is there |
| Followups.FollowedExactly | backend/app/services/followups.py:22-58 | what is stored afterwards: the task exactly unless nothing is left to follow up, and the drafts |
| Followups.FollowedTwice | backend/app/tasks.py:343-388 | the same analysis again adds nothing |
| Records.ReanalysisLinksExactly | backend/app/tasks.py:308-340 | in a reanalysis every evidence index links to the row it was checked against exactly when the stored positions have no gap |
| Records.FullRunLinks | backend/app/tasks.py:308-340 | after transcription every index links to the row at the position of its item |
| Records.NormalizedTurns | backend/app/services/metrics.py:9-26 | the turns of a transcription are numbered by their index and have stripped texts |
| Records.FullRunTextExactly | backend/app/tasks.py:216-246 | after transcription every linked row, and the transcript version the analysis refers to, holds the text that was checked exactly when every corrected row at an item's index already did |
| Records.QuoteOfAnotherText | backend/app/tasks.py:216-340 | a quote accepted against a turn is linked to a corrected row that does not support it |
| Records.GapLinksAnotherRow | backend/app/tasks.py:308-340 | a shorter run over corrected rows leaves a gap, after which an index links to another row than it was checked against |
| Records.FinishedKeeps | backend/app/tasks.py:546-589 | the last transaction of a run keeps the invariant of its call and undoes nothing |
| Records.FailedRecordKeeps | backend/app/tasks.py:590-653 | so does the exception handler |
| Records.RefersToNewTranscript | backend/app/tasks.py:557-582 | the new analysis version refers to the transcript version taken in the same transaction; whether that holds the checked text is `Records.FullRunTextExactly` |
| Records.ReviewedRecordKeeps | backend/app/main.py:2795-2843 | a review action keeps the invariant of its call, undoes nothing and publishes at most once, by a human |
| Records.RunEnters | backend/app/tasks.py:510-534 | the two commits in between record their steps, with the attempt of the session's copy, and write nothing else |
| Records.ReviewWrites | backend/app/services/versioning.py:237-262 | of the call a review action changes the reviews, and only publishing the latest version also outcome, score and status |
| Records.EditWrites | backend/app/main.py:1096-1134 | an edit leaves the call waiting for a reanalysis or for review and changes nothing but text and status; which runs can begin then |
| Records.RolesWrite | backend/app/main.py:1159-1213 | so does a role edit |
| Records.FinishRecordStores | backend/app/tasks.py:249-340 | the extraction of the last transaction, by the provider's analysis and the run's items alone: the supported facts with their values, whether everything was supported, the latest confidence, and the evidence under each key with the row at its index |
| Lifecycle.StepKeeps | backend/app/tasks.py:391-664 | every step of every interleaving keeps the tenant's invariant |
| Lifecycle.ReachableInv | backend/app/tasks.py:391-664 | so it holds after every run of steps |
| Lifecycle.RunGrows | backend/app/tasks.py:391-664 | from any point to any later one nothing recorded is undone: versions, corrections, superseded versions, publications, tasks |
| Lifecycle.PublishedPointer | backend/app/services/versioning.py:202-272 | in every reachable state the pointer is the version of the call's last publication, published or policy-approved |
| Lifecycle.AtMostOnePublished | backend/app/services/versioning.py:202-272 | in every reachable state: at most one published version exactly when at most one human publication still stands |
| Lifecycle.PublishedWithoutPolicy | backend/app/services/versioning.py:226-272 | in runs without policy approval of the call a version is published exactly when the call points to it |
| Lifecycle.SupersededForever | backend/app/services/versioning.py:248-254 | superseded is absorbing |
| Lifecycle.RejectedForever | backend/app/services/versioning.py:226-285 | once rejected, a case and its version never change again, and no publication of the call names the version, in any run |
| Lifecycle.SnapshotsFaithfulAndImmutable | backend/app/services/versioning.py:37-90 | in every reachable state the latest transcript version equals the live rows on every copied column, and no version ever changes |
| Lifecycle.CorrectionsSurvive | backend/app/main.py:1095-1134 | a corrected row is never deleted and holds what its last human edit set, through any runs |
| Lifecycle.ReviewsReplay | backend/app/services/versioning.py:226-285 | the events of every case replay to its status; a publication follows an approval, and neither is by the call's seller |
| Lifecycle.PublishedOnce | backend/app/services/versioning.py:237-243 | every version is published at most once |
| Lifecycle.ReviewedPointer | backend/app/services/versioning.py:226-262 | in every reachable state the reviewed pointer names a version that is not superseded, approved or published exactly when its last approval was not withdrawn |
| Lifecycle.PublicationWrites | backend/app/services/versioning.py:237-262 | a person's publication sets both pointers and the confirmation, of the latest version also outcome, score and completion, and nothing of the call otherwise |
| Lifecycle.FinishColumns | backend/app/tasks.py:546-589 | the last commit leaves the outcome and score of its analysis exactly when each differs from the session's copy or is there already |
| Lifecycle.UndisturbedColumns | backend/app/tasks.py:546-589 | with no other writer it always does, the counter is zero and the last successful stage the final status |
| Lifecycle.FinishStores | backend/app/tasks.py:546-589 | the last commit of a run stores the validated analysis and its checks as a version of the transcript taken with it, its review case, and the extraction by what the provider returned |
| Lifecycle.FinishFollowsUp | backend/app/tasks.py:343-388 | and the task and drafts of the validated analysis |
| Lifecycle.SnapshotWrites | backend/app/main.py:2656-2681 | a manual snapshot adds one version of the rows as they are and nothing else |
| Lifecycle.QueueWrites | backend/app/main.py:2684-2709 | queueing an analysis sets the status only, and a run of any mode can begin then |
| Lifecycle.PolicyWaitsForPilot | backend/app/services/versioning.py:95-105 | every policy publication comes after human publications of at least 50 distinct calls |
| Lifecycle.CommittedProgress | backend/app/tasks.py:143-191 | in every reachable state: no status from between two commits; every event an allowed step or the exception handler's; at most one event open, none when the newest records an outcome, none in a failed or rescheduled call; and in a call under way the step into its status is open |
| Lifecycle.OpenExactly | backend/app/tasks.py:143-191 | a queued, reviewed, completed or quarantined call has an open event exactly when its newest event was open at the moment an endpoint set that status |
| Lifecycle.QuarantinedWhileOpen | backend/app/main.py:2515-2565 | three steps reach a quarantined call with an open event, whose run then fails without a record |
| Lifecycle.RecordOnlyGrows | backend/app/tasks.py:143-191 | whatever happens, the recorded steps of a call are only added to |
| Lifecycle.RunChains | backend/app/tasks.py:143-191 | whoever else writes to its call, the steps a run has recorded chain from the status the call had to the run's own, all allowed |
| Lifecycle.FinishedRunChains | backend/app/tasks.py:143-191 | and those of a run that finishes are its whole route, up to review or completion |
| Lifecycle.RunRecordsItsSteps | backend/app/tasks.py:143-191 | with no other writer these steps are all that was added to the call since the run started |
| Lifecycle.FinishedRunRecordsItsRoute | backend/app/tasks.py:143-191 | so for a run that finishes: the whole route and nothing else |
| Lifecycle.ScheduledAreDelays | backend/app/tasks.py:590-664 | between two resets the retries written to a call are those of its faults, and the counter counts them |
| Lifecycle.RetriesBounded | backend/app/tasks.py:590-664 | between two resets at most one retry per slot, in their order, each after at least a second and in the band of its slot, within the sum of the longest delays |
| Lifecycle.StaysInStep | backend/app/tasks.py:448-454 | while nobody else writes to its call, a run's own status is the committed one |
| Lifecycle.FailureIsHandled | backend/app/tasks.py:590-653 | a failure at any point after the first commit, undisturbed, leaves the call rescheduled or failed and nothing else changed |
| Lifecycle.PolicyPublishesUntouched | backend/app/services/versioning.py:157-213 | a run publishes by policy only what validation left untouched, and after the pilot |
| Lifecycle.UndisturbedReanalysis | backend/app/tasks.py:456-487 | with no other writer on its call, the rows a reanalysis works on and leaves are those the call had at its start, at whatever point in between they are read |
| Lifecycle.FullRunMirrorsItems | backend/app/tasks.py:216-246 | any other run leaves corrected rows alone and makes the others mirror its items |
| Sessions.Session.Transition | backend/app/tasks.py:143-191 | refused without a trace unless allowed, otherwise status and events change as stated |
| Sessions.Session.BeginTransaction | backend/app/tasks.py:445-454 | commits the first transaction of a run, or rolls back |
| Sessions.Session.TranscribingTransaction | backend/app/tasks.py:510-513 | commits the transaction before transcription |
| Sessions.Session.AnalyzingTransaction | backend/app/tasks.py:521-534 | commits the transaction before analysis, two transitions in one |
| Sessions.Session.FinishTransaction | backend/app/tasks.py:541-589 | validates, then commits everything the last transaction writes, or nothing |
| Sessions.Session.HandleException | backend/app/tasks.py:590-653 | rolls back, then commits the failure, or raises and leaves the committed rows |
| Sessions.Session.ProcessCall | backend/app/tasks.py:391-664 | an undisturbed task commits exactly the steps of its plan, with an interruption at any point, returns the status it committed, and has recorded its whole route when it is done |
| Sessions.DoneWentTheRoute | backend/app/tasks.py:391-664 | what a task that is done has added to the events of its call: the whole route of its mode, chained and all allowed |
| Sessions.FinishesExactly | backend/app/tasks.py:391-589 | a task finishes exactly when it is not skipped, its first step is allowed, nothing fails on its way, there is something to analyse and no position is new twice |
| Sessions.InterruptedAt | backend/app/tasks.py:426-600 | an exception on the way of a task is its end, recorded with the stage it happened in |
| Sessions.FinishRefusedExactly | backend/app/tasks.py:546-589 | once analysis is reached, only a repeated new position refuses the last transaction |
| Sessions.FirstCommit | backend/app/tasks.py:445-454 | the first commit starts a run in step with the committed status |
| Sessions.Session.EditSegment | backend/app/main.py:1073-1137 | who may edit which segment, and that the commit is exactly one step of the machine |
| Sessions.Session.UpdateSpeakerRoles | backend/app/main.py:1140-1216 | the same for roles, refused when no row changes |
| Sessions.Session.CreateTranscriptSnapshot | backend/app/main.py:2656-2681 | the same for a manual snapshot |
| Sessions.Session.ReprocessCall | backend/app/main.py:1014-1047 | queues the call again; the counter restarts on a full reprocessing only |
| Sessions.Session.ProcessingAction | backend/app/main.py:2515-2565 | each operation is one step of the machine |
| Sessions.Session.QueueAnalysisVersion | backend/app/main.py:2684-2709 | queues the call |
| Sessions.Session.PerformReviewAction | backend/app/main.py:2795-2843 | the first refusal that applies leaves the rows as they were, a changed assignee included; otherwise one step is committed |
| Sessions.Session.TransitionReview | backend/app/services/versioning.py:217-285 | case, version, predecessor, pointers, call and publication change as the transition states |
| Watcher.StableExactly | backend/app/services/watcher.py:446-494 | an unprocessed file is called stable exactly when nothing changed over observations spanning the window; detection is the first observation's time |
| Watcher.QuietSinceMeaning | backend/app/services/watcher.py:477-487 | the recorded time is that of the first observation of the last unchanged stretch |
| Watcher.StableAfterAnyScans | backend/app/services/watcher.py:446-494 | the same after any scans of both kinds, over all observations ever made of the path |
| Watcher.ImportedAfterTheWindow | backend/app/services/watcher.py:155-208 | only a file that stayed unchanged for the window is imported or quarantined, with its own content and first detection |
| Watcher.ImportedOnce | backend/app/services/watcher.py:414-427 | over any scans at most one call per path, per content and per external id |
| Watcher.ProcessedForever | backend/app/services/watcher.py:475-476 | an imported or quarantined row is never touched again |
| Watcher.ScansKeep | backend/app/services/watcher.py:155-208 | any scans keep the invariant between rows, calls and observations |
| Watcher.LocalVerdict | backend/app/services/watcher.py:158-198 | what happens to any file of the folder: it waits exactly when it can be observed and changed within the window; otherwise what is known of its path and content decides |
| Watcher.RemoteVerdict | backend/app/services/watcher.py:299-336 | the same on the server, where a processed path is not read and a known content raises |
| Watcher.VerdictLeaves | backend/app/services/watcher.py:446-650 | what each verdict leaves in rows and calls: the row as met, its status, hash and call, one call for an import, and nothing of another path |
| Watcher.MarkNeverCommits | backend/app/services/watcher.py:496-517 | marking a known content on an unprocessed path is always refused by the unique hash |
| Watcher.NewRowWritten | backend/app/services/watcher.py:519-650 | the row that an import or a quarantine makes where the path has none |
| Watcher.MarkedExactly | backend/app/services/watcher.py:496-517 | what marking writes where its commit succeeds: the hash, the status, and no call but the row's own |
| Watcher.KnownContentStopsEveryScan | backend/app/services/watcher.py:279-336 | such a recording stops every later scan that lists it and is never marked |
| Watcher.SecondCopyBlocks | backend/app/services/watcher.py:279-336 | two copies and two scans reach that state |
| Watcher.EveryFileAccounted | backend/app/services/watcher.py:155-208 | a completed scan counts every discovered file once; one that raises has one more discovered than counted |
| Watcher.CountersExactly | backend/app/services/watcher.py:155-208 | which verdicts each counter counts, and that the imports it counts are the calls that were added |
| Watcher.Repository.ObserveSource | backend/app/services/watcher.py:446-494 | one durable observation |
| Watcher.Repository.ImportFile | backend/app/services/watcher.py:519-609 | a call and its row together, or a rollback that counts as a duplicate |
| Watcher.Repository.QuarantineFile | backend/app/services/watcher.py:612-650 | the row becomes quarantined with its content |
| Watcher.Repository.MarkDuplicate | backend/app/services/watcher.py:496-517 | the row takes the hash, or the commit raises |
| Watcher.LocalRecordingWatcher.ScanOnce | backend/app/services/watcher.py:155-208 | a scan of the folder: rows, calls and counters afterwards, and whether it raised |
| Watcher.SftpRecordingWatcher.ScanOnce | backend/app/services/watcher.py:279-386 | the same for the server, and the downloads |
| Watcher.DownloadsBetween | backend/app/services/watcher.py:279-336 | a scan of the server downloads everything it imports or quarantines and nothing that waits |
| Watcher.FetchedExactly | backend/app/services/watcher.py:289-304 | a file is downloaded exactly when it is not processed, waited long enough and can be read |
| Traversal.CandidateRecordings | backend/app/services/watcher.py:240-277 | the worklist ends, never exceeds the cap, and returns the depth-bounded listing sorted, all of it when it fits |
| Traversal.ScanDirectory | backend/app/services/watcher.py:246-276 | reading one directory moves files and directories from the listing to the result and the stack, until the cap |
| Traversal.ListingExactly | backend/app/services/watcher.py:248-276 | a recording is listed exactly when plain names lead to it in the tree, through no more levels than the bound, and its own name is allowed |
| Traversal.ListingBelow | backend/app/services/watcher.py:248-256 | so nothing outside the root is listed and nothing deeper than the bound |
| Traversal.JoinExactly | backend/app/services/watcher.py:250 | exactly one slash stands between a directory and a name in it, a new one where there was none |
| Traversal.SortedIsOrdered | backend/app/services/watcher.py:277 | the result is sorted by path and loses nothing |
| Backup.ParseSources | scripts/backup.py:98-114 | accepted exactly when every specification is good and no label repeats, in order; otherwise the first one that is refused, and what for |
| Backup.SpecSplits | scripts/backup.py:103-105 | a specification is its label, the first equals sign and its path |
| Backup.LabelIsGoodName | scripts/backup.py:59-106 | a label names one directory of the archive and no other place |
| Backup.IterSourceFiles | scripts/backup.py:117-146 | the files met in a source, with the reason to leave one out |
| Backup.LeftOutExactly | scripts/backup.py:325-332 | every file met is chosen or listed with its reason, and nothing else is listed |
| Backup.ExcludedExactly | scripts/backup.py:117-146 | exactly the links and the secrets that names lead to are left out, each with its reason |
| Backup.MetOnce | scripts/backup.py:117-146 | no path is met twice |
| Backup.WalkPicks | scripts/backup.py:130-146 | a walk meets exactly the files and links that names lead to, through directories that are not ignored or linked, each with its content and reason |
| Backup.StagedExactly | scripts/backup.py:325-355 | staging never fails and holds exactly the chosen files under their labels |
| Backup.Inventory | scripts/backup.py:244-258 | the sorted inventory |
| Backup.InventoryExactly | scripts/backup.py:244-258 | it lists every file by size and digest except those named like the manifest, none twice, in the order of the paths |
| Backup.VerifyArchive | scripts/backup.py:261-295 | the manifest, or the first thing wrong |
| Backup.AcceptedExactly | scripts/backup.py:261-295 | accepted exactly when members are safe, the manifest is readable and every listed file has its size and digest |
| Backup.RefusedExactly | scripts/backup.py:261-295 | what an archive is refused for, in order: an unsafe member, the manifest, the first entry that is missing or does not match |
| Backup.LastRegularExactly | scripts/backup.py:283-285 | of several files of one name the last one is checked |
| Backup.AlterationAcceptedExactly | scripts/backup.py:261-295 | a written archive with one member changed is still accepted exactly when the member is no link and is unlisted or of the same size and digest |
| Backup.CreatedIsAccepted | scripts/backup.py:298-407 | every archive that is written is accepted, with its own manifest |
| Backup.InsideExactly | scripts/backup.py:317-320 | no backup is written into a directory that is backed up, at any depth |
| Backup.CreateBackup | scripts/backup.py:298-421 | which errors come when, and what a backup selects, leaves out and archives |
| Restore.ExtractPayload | scripts/restore.py:47-59 | the payload members written to an empty directory, or the failure of one |
| Restore.RestoreBackup | scripts/restore.py:86-177 | checks first, then copies; the target and the answer |
| Restore.AnswersExactly | scripts/restore.py:107-177 | which answer comes when, what the report counts, and that without `apply` and for every answer but success and a failed copy the target is as it was |
| Restore.DryRunOfCreated | scripts/restore.py:107-136 | the dry run of a created archive leaves the target alone and reports the number of selected files not named like the manifest, and the labels |
| Restore.RestoredExactly | scripts/restore.py:147-177 | without overwriting: a conflict leaves the target unchanged; otherwise success exactly when no file stands above a destination, and then exactly the archive's files are added |
| Restore.OverwrittenExactly | scripts/restore.py:163-177 | with overwriting, existing files are replaced and nothing else changes exactly when no destination is a directory and no file stands above one |
| Restore.FailedCopyUnchangedExactly | scripts/restore.py:161-177 | a copy that fails leaves the target unchanged exactly if already the first destination is blocked |
| Restore.HalfRestored | scripts/restore.py:147-177 | a backup of two files whose restore passes the check, writes the first and fails at the second |
| Restore.OverwriteIntoDirectory | scripts/restore.py:147-177 | a backup of one file whose restore succeeds but leaves the file inside the directory at its destination |
| Restore.CreatedExtracted | scripts/restore.py:47-59 | the payload of a created archive is extracted whole |
| Restore.RoundTrip | scripts/restore.py:147-177 | backup then restore into an empty target gives exactly the selected files under label and relative path, with the same bytes |
| LoadRunner.NoRequestTwice | load-tests/run_load.py:110-114 | in every interleaving, with deadlines and exceptions, each request handed out is executed once and none beyond the limit |
| LoadRunner.AllWorkersEnd | load-tests/run_load.py:186-200 | with a limit every interleaving ends within a bounded number of steps |
| LoadRunner.EveryRequestOnce | load-tests/run_load.py:186-200 | without deadline and exceptions the results are those of 0 to limit - 1, each once |
| LoadRunner.LostExactly | load-tests/run_load.py:149-200 | exactly the requests that raised are left without a result, and each ended its worker |
| LoadRunner.Runner.RunAll | load-tests/run_load.py:230-250 | the pool under any scheduler ends with exactly these results |
| LoadRunner.PercentileMeaning | load-tests/run_load.py:30-35 | the percentile is one of the values, with at least the share at most it and less than the share below it |
| LoadRunner.PercentileMissing | load-tests/run_load.py:30-35 | no percentile without values, and none for a share of more than all of them |
| LoadRunner.PercentileOfNone | load-tests/run_load.py:30-35 | a share of none or less is the least value |

## Left out

- Web front end, local preview, authentication, HTTP parsing, SQL text, row-level security, audit rows, artifact versions, rendering and admin pages: they decide little of their own.
- The provider, ffmpeg, object storage, the task queue and the network: results and failures are arbitrary inputs. Downloads, uploads and the CDR lookup can only succeed or raise.
- Races inside one transaction, such as numbering by the highest number plus one, and two scans at the same time: a transaction is one atomic step.
- Deletion of calls and retention jobs: calls stay. Confirming an outcome by hand is not a step.
- Identifiers: rows are numbered in order of creation, and a call's number stands for the integer of its identifier in the sampling rule.
- Floating point: seconds in the metrics are integers on a grid, other times, scores and jitter are reals. Rounding is modelled in the retry delay and in the recomputed score only.
- The words of notes, titles, messages and explanations, timestamps of rows, and the task's due date and priority. Facts are numbered in the order of validation rather than named.
- The extraction's columns that repeat or combine fields of the analysis, such as the exact amount that falls back to the amount and the joined commitments: the facts are one map.
- Glossary replacement and the role heuristics: their results are arbitrary items and roles, so no law of theirs is used.
- Unicode tables: Persian normalisation, case folding and tokens are functions passed in; `Strip` uses Python's white-space characters.
- The recursive glob of the folder watcher: a scan is given the sorted list of files it found.
- Archive members' names are lists of parts, so names that differ only in redundant separators are one name. File modes, times and special files, links inside the target, the Docker service dumps, pruning of old archives and the bytes of the tar container are not modelled. The manifest has its labels, exclusions and entries only.
- Evidence.ScoreBound: the sum is rounded to two digits of exact reals, not of binary fractions.
- Watcher.ImportedOnce: calls that other sources create are known by their external ids only.
- Sessions.Session.ProcessCall: interruptions between two statements of one transaction are not told apart, since all of them roll back to the same commit.
- LoadRunner.Runner.RunAll: the run without a deadline; runs with one are covered by LoadRunner.NoRequestTwice.
- Lifecycle.UndisturbedReanalysis: the source reads the rows, waits for the provider and writes in one transaction, which is one step here; an edit that somebody else commits while it waits is a race inside that transaction, where the session would still check evidence against the rows as read and copy them into the snapshot.
