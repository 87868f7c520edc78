# Verified model of the skill hub

A Dafny model of the hub's stateful core, with proofs about all inputs, all runs and all interleavings.
`dafny verify dfyconfig.toml` checks everything.

## What is modelled

**Scanning and review** (`Scan*.dfy`, `WorkerDecisions.dfy`). The tables of publications, scan jobs, scan events and transition
audit rows, with the database guards as checks that can abort a transaction. Any number of workers claim jobs under
leases, call a provider, decide, crash and commit, interleaved with uploads and administrators' decisions. A run is any
sequence of steps, one per transaction, provider interaction or crash. The clock reading in each step is arbitrary, so the
safety results need no assumption about clocks at all. On top of the transactions as functions, `Repository` and
`Worker` are objects whose methods change their fields in place and are proved equal to those functions and to protocol runs.
`ScanRules.dfy`, `WorkerRules.dfy` and `RunRules.dfy` say the same transactions, decisions and runs once more without naming
those functions: over the rows, the replies and the counts alone, when each one happens, what it leaves, and why it is refused.

**Object store** (`ObjectStore*.dfy`, `ContentAddressedStorage.dfy`, `Publish*.dfy`). The directory as it looks is kept
apart from the part that a crash preserves. Concurrent calls of `store` go through that method's system calls one by one;
at any moment a call can fail or a crash can drop or keep every unsynced entry and scramble every unsynced file.
Publishers run on top: store the upload when its scan is deferred, store the final archive, commit. What they commit stays
readable, and from every reachable state a publisher that is left alone can still commit.

**Author identities** (`Identity*.dfy`). Author, key and credential rows, the guards on each, and the cascade of guarded updates that
inserting one audit row sets off, update by update. The tables are related to a replay of the audit; the service issues
tokens and authenticates them. `IdentityReference.dfy` is an independent account without pending rows, guards or cascades, a
directory of profiles, keys and tokens; the tables follow it column by column over every run, with the same refusals.

**Archives** (`Paths.dfy`, `PathCheck.dfy`, `ArchiveTree.dfy`, `Archive*.dfy`, `Rebuild.dfy`). Member names as strings, the incremental
path check with its two dictionaries, inspection, and the rebuild with a signed manifest. `ArchiveRules.dfy` follows each
name character by character from the root, and says over the characters which names, and which archives, are accepted.

**Manifests and signatures** (`Json*.dfy`, `GraphText.dfy`, `CanonicalManifest.dfy`, `Base64.dfy`, and `TextRules.dfy` and
`Base64Rules.dfy` for the letters themselves). Decoded values as graphs of containers, the checks that walk them with an
ancestor set, canonical text with a parser that undoes it, and strict base64.

**Package rules** (`Skill*.dfy`, `PackageRules.dfy`, `Review.dfy`). The looped parsers of sensors, triggers, actions and
prompts against the declarative rules; the same rules over the texts of the document; and the review decision.

**Inline polling** (`PollLoop.dfy`). The polling loop with doubling waits under a deadline.

## Assumptions

SHA-256 is a function; it is injective only where a result says so (reading back exact bytes, and which token authenticates).
Record ids, temporary names and credential ids are fresh; worker ids are distinct and each worker handles one job at a time.
Where a result says so, worker ids are also apart from the ids under which uploaders and administrators act; the application
makes them from the host name and a random number (hub/web/main.py:172). Case folding maps one character to one string, and
only the slash folds to something with a slash. The YAML reader and writer are faithful: what is read has distinct text keys
and finite numbers, and what is written reads back as the same value; and the written archive ends with zero blocks. After
an fsync of a file its content survives a crash, and after an fsync of the directory its entries do. Seconds are real numbers.

## Where the code says more, or less, than its description

- The database guard that compares a finished job's verdict with its state lets a missing verdict pass, because in SQL the
  comparison is then unknown. The model keeps that; the repository always writes the verdict, so reachable rows are not affected.
- The polling loop sends fewer requests than one plus the time to the deadline divided by the first wait: a wait cut short by the
  deadline is never followed by a request. `Poll` states the exact schedule.
- A completion under a held lease is turned away exactly when it would move its publication and the same actor has already used
  its idempotency key. `ScanKeyClash.ClashIsReachable` is a run in which that happens, because an uploader acts under a worker's
  id; `ScanKeys.SeparateWorkersCommit` shows that it never happens when worker ids are apart.
- Clock skew between a claim and the later writes can make a write lose its lease, but cannot break fencing.

## Model

| member | source | states |
|---|---|---|
| ScanEvidence.VerdictMatchesEvidence | hub/integrations/scan.py:376-427 | a completed analysis is judged exactly when its eight counts are well formed; it is clean exactly when the persisted counts show no detection and a strict harmless majority, malicious exactly when they show a detection |
| WorkerDecisions.DelayBounds | hub/core/scan_worker.py:119-126 | every backoff delay lies between the policy's first and longest backoff, jitter included |
| WorkerDecisions.RescheduleIsBounded | hub/core/scan_worker.py:128-249 | every reschedule is strictly in the future, at most max(longest backoff, 300) seconds away |
| WorkerRules.EndsExhaustedIff | hub/core/scan_worker.py:112-117 | a run ends its job as exhausted exactly when the job is beyond its attempts or its age, or a failure that could be retried finds no attempt left |
| WorkerRules.EndsUnansweredIff | hub/core/scan_worker.py:153-171 | a run ends its job for review without a verdict exactly at a refusal, a missing upload, a missing analysis id or a malformed analysis |
| WorkerRules.EndsJudgedIff | hub/core/scan_worker.py:186-207 | a run ends its job with a verdict exactly when a poll hears of all eight counts, and malicious, clean or for review as those counts say |
| WorkerRules.ReportsSubmissionIff | hub/core/scan_worker.py:128-140 | a submission is reported exactly when the provider accepts it under an id of 1 to 512 characters, and polled after the doubled first wait with jitter, cut off at the longest |
| WorkerRules.ReportsPollingIff | hub/core/scan_worker.py:173-185 | a poll is reported exactly when the analysis is still under way, with the same wait |
| WorkerRules.RetriesIff | hub/core/scan_worker.py:210-249 | a job is rescheduled exactly at a rate limit, rejected credentials or an unavailable provider with attempts left, and to that second: the wait asked for between 1 and 300, the longest wait, or the doubled one |
| WorkerRules.BreaksDownIff | hub/core/scan_worker.py:128-229 | nothing is written exactly at an unreadable upload, an answer that does not belong to the request, an improper id or counts out of all proportion |
| WorkerRules.CallsProviderIff | hub/core/scan_worker.py:101-107 | the provider is called exactly when the job is within its life and there is something to send or to ask for |
| RunRules.CallsAreRecorded | hub/core/scan_worker.py:128-176 | the calls that the budget counts are exactly the provider calls a run makes |
| RunRules.RunWrites | hub/core/scan_worker.py:90-260 | the rows that a run leaves when it writes within its lease, decision by decision |
| RunRules.PassingFailuresReschedule | hub/core/scan_worker.py:149-152 | a passing failure ends nothing: the job keeps its state, is released and waits for exactly the time the failure calls for |
| RunRules.CrashesAreRecovered | hub/db/scans.py:200-232 | a crash forgets a worker's run and nothing else, and whoever is idle can lease the first due job afterwards |
| ScanRepository.Repository.InsertRow | hub/db/_models.py:71-237 | inserting an audit row and the update it triggers commit together or not at all |
| ScanRepository.Repository.Publish | hub/db/repository.py:125-265 | a publication, its scan job, first event and first audit row commit together or not at all; when is ScanRules.PublishCommitsIff |
| ScanRules.PublishCommitsIff | hub/db/repository.py:155-265 | a publication commits if and only if it starts pending, or listed without Tier C/D and without a scan, its id, archive, name and version and job id are unused, its key is unused and its author is active; every other case has its error; and what it adds is listed row by row |
| ScanRepository.Repository.Transition | hub/db/repository.py:267-355 | an administrator's decision, with every reason for refusing it |
| ScanRules.ReviewCommitsIff | hub/db/repository.py:34-38 | listing, rejecting and unlisting commit exactly from their one prior status, under an unused key and, for a scanned publication to be listed, after its scan has ended without malware; every other case has its error |
| ScanRepository.Repository.Claim | hub/db/scans.py:188-257 | leases a due job that no due job precedes in the queue; returns nothing exactly when none is due |
| ScanRules.ClaimsFirstDue | hub/db/scans.py:200-213 | a claim takes an unfinished, unleased, due job that comes first by time and then by age |
| ScanRules.LeaseLasts | hub/db/scans.py:214-257 | the lease is its owner's alone until exactly lease_seconds after the claim, and from then on the job can be claimed again |
| ScanRepository.Repository.Record | hub/db/scans.py:319-375 | a report is written only under the unexpired lease and in an expected state |
| ScanRules.ReportWrites | hub/db/scans.py:319-375 | a report is refused exactly without the unexpired lease and an expected state, and otherwise changes one job as reported, with one event |
| ScanRepository.Repository.Finish | hub/db/scans.py:377-503 | a completion writes job, event and visibility change together, and answers false when the job was already finished |
| ScanRules.CompletionWrites | hub/db/scans.py:446-503 | the job, event, publication and audit rows after a completion: a clean result lists a pending publication without Tier C/D, a malicious one rejects a pending one |
| ScanRules.LateCompletionsWriteNothing | hub/db/scans.py:425-430 | without the lease nothing is written: false for a finished job, a lost lease otherwise |
| ScanRules.GuardProtects | hub/db/_models.py:938-1004 | no update goes back a stage, leaves a result, or judges without a submission and counts |
| ScanRepository.CandidateExists | hub/db/scans.py:200-213 | if any job is due, one of them is first in the queue |
| ScanWorker.Worker.Begin | hub/core/scan_worker.py:90-100 | the claim of a run is the protocol's claim step |
| ScanWorker.Worker.Proceed | hub/core/scan_worker.py:101-249 | the provider interaction and decision are the protocol's step, and the counters count what happened; which decision is WorkerRules, case by case |
| ScanWorker.Worker.Reread | hub/db/scans.py:300-317 | a retry reads the row in a transaction of its own before it reports |
| ScanWorker.Worker.Conclude | hub/core/scan_worker.py:200-260 | the outcome transaction is the protocol's commit; only a completion that finished its job is counted |
| ScanWorker.Worker.RunOnce | hub/core/scan_worker.py:90-110 | one undisturbed run is exactly the protocol run claim, act, read back, commit; what it leaves is RunRules.RunWrites |
| ScanSafety.TransitionCommitsIff | hub/db/_models.py:71-132 | exactly when an audit insert and its cascade commit in consistent tables |
| ScanSafety.ClaimKeepsDb | hub/db/_models.py:938-1004 | no guard ever aborts a claim of a due job |
| ScanSafety.ProgressKeepsDb | hub/db/_models.py:938-1004 | no guard ever aborts a report under a held lease |
| ScanSafety.CompletionKeepsDb | hub/db/scans.py:377-503 | a completion under a held lease fails if and only if it would move its publication and the same actor has used its key before; otherwise it finishes the job |
| ScanSafety.ReachableInv | hub/db/_models.py:938-1046 | every reachable state keeps the row, link, scan and audit invariants and the workers' fencing invariant |
| ScanSafety.OutcomesAreFenced | hub/db/scans.py:188-430 | every outcome that commits is written against exactly the row the worker's claim returned, by the holder of the latest claim |
| ScanSafety.InTimeOutcomesCommit | hub/db/scans.py:350-430 | an outcome written while the lease holds commits, and releases the job as decided, if and only if it is not such a completion; a blocked one changes no table |
| ScanKeys.SeparateWorkersCommit | hub/db/scans.py:454-498 | when no uploader or administrator acts under a worker's id, every outcome written within the lease commits and releases the job as decided |
| ScanKeys.CompletionKeyInjective | hub/db/scans.py:465 | the key of a conclusive completion names one job and one result |
| ScanKeyClash.ClashIsReachable | hub/db/scans.py:465-502 | a run in which an uploader has used a worker's id and key, and the in-time completion is turned away |
| ScanSafety.OneHolderPerRow | hub/db/scans.py:214-232 | two workers never both see their claimed row in the table |
| ScanVisibility.VisibilityFollowsEvidence | hub/db/_models.py:1006-1045 | unfinished scan: pending or rejected; malicious: rejected; clean without Tier C/D: decided; listed: allowed evidence |
| ScanVisibility.PublicationsAreUnique | hub/db/_models.py:1397 | no name and version is published twice, and no archive digest under two publications |
| ScanVisibility.MaliciousStaysRejected | hub/db/_models.py:200-212 | after a malicious result the publication is rejected in every later state |
| ScanVisibility.AutomaticListing | hub/db/scans.py:446-498 | a worker lists only a pending publication without Tier C/D whose persisted counts have a clean harmless majority |
| ScanVisibility.QueueIsApprovable | hub/db/repository.py:397-435 | the review queue holds exactly the publications whose approval under a fresh key commits |
| ScanHistory.HistoriesReplay | hub/db/scans.py:243-256 | the events replay to every job's state, attempts, verdict and counts; the audit replays to every publication's status, revision and approver |
| ScanHistory.HistoriesAreBounded | hub/db/_models.py:1456-1466 | one lease event per attempt, at most one outcome per attempt and one completion in all, at most 1 + 2 * attempts events, at most three audit rows, each idempotency key used once |
| ScanBudget.ProviderCallsWithinBudget | hub/core/scan_worker.py:112-186 | across all workers, crashes and restarts a job reaches the provider at most maximum_attempts times |
| ScanBudget.ClaimsCountAttempts | hub/db/scans.py:225-230 | the attempt count grows by exactly the number of claims |
| ScanBudget.FurtherClaimsAreBounded | hub/core/scan_worker.py:231-260 | from k attempts, a job that has been claimed maximum_attempts + 1 - k more times is finished as soon as the last worker writes its outcome within its lease |
| ScanBudget.ReleasedBeyondBudgetIsFinished | hub/core/scan_worker.py:112-117 | no job is released, unfinished and out of attempts, and a finished job is never claimed again |
| ScanBudget.PunctualClaimsAreBounded | hub/core/scan_worker.py:231-260 | when every worker finishes within its lease, a job is claimed at most max(1, maximum_attempts + 1 - k) more times, for ever |
| ScanQueue.WaitingJobIsPassedOnceByEach | hub/db/scans.py:200-232 | while a due job waits, every other job is claimed at most once, and one queued strictly later not at all |
| ScanBypass.BypassIsBounded | hub/db/scans.py:200-232 | while a due job waits, at most as many claims succeed as there were unfinished jobs not strictly behind it |
| ObjectStoreSafety.EveryObjectIsSound | hub/storage/objects.py:45-69 | every digest-named entry, visible or possible after a crash, is fully written, synced and hashes to its name |
| ObjectStoreSafety.ReturnedDigestsAreDurable | hub/storage/objects.py:53-84 | what store returned can be read back exactly through all later crashes and calls |
| PublishOrder.CommittedDigestsAreReadable | hub/core/publish.py:163-202 | every stored digest named by a committed publication or scan job stays readable, whatever other publishers, callers and crashes do |
| PublishProgress.PublicationsCanComplete | hub/core/publish.py:163-202 | from every reachable state a new publication can still be carried through, and then commits exactly the digest of its final archive and, when the scan is deferred, that of the upload |
| ContentAddressedStorage.Storage.Store | hub/storage/objects.py:45-69 | the call stores the payload durably, touches no other object, leaves no temporary name and is a run of the protocol |
| ContentAddressedStorage.Storage.Read | hub/storage/objects.py:71-84 | returns bytes that hash to the digest, or the reason there are none |
| ContentAddressedStorage.WellFormedIffDigest | hub/storage/objects.py:71-78 | a digest is well formed exactly when it is "sha256:" and the 64 small hexadecimal digits of a 32-byte hash |
| ContentAddressedStorage.StoredReadsBack | hub/storage/objects.py:71-84 | reading what a call has stored succeeds, and gives the payload back |
| ContentAddressedStorage.StoredIsRun | hub/storage/objects.py:50-69 | an undisturbed call is one of the protocol's runs, with or without an existing object |
| IdentityLifecycle.CascadesComplete | hub/db/_models.py:634-906 | on consistent tables an accepted audit row always completes its whole cascade; it is refused only for a used key or number, bad metadata or failed ownership |
| IdentityLifecycle.InsertKeepsConsistent | hub/db/_models.py:238-608 | every accepted audit row leaves tables that agree with the replay of the audit |
| IdentityService.OperationsSettle | hub/db/_identity_repository.py:61-332 | each operation changes nothing or settles the tables; with its conditions met only a used idempotency key stops it |
| IdentityService.IdentityStateIsExact | hub/db/_models.py:238-509 | an active author has exactly one active key, which is the last key event's and the only one with the author row's public key, and exactly one active credential; a revoked author has none; audit numbers are exactly 1 to the revision |
| IdentityService.RevocationIsFinal | hub/db/_models.py:430-503 | no later operation touches a revoked key, credential or author, or rewrites the audit |
| IdentityService.AuthenticatesIffCurrent | hub/security/author_identity.py:378-415 | a token authenticates as an author exactly when it is the one of the latest registration or credential rotation, unexpired, author not revoked; the key returned is the latest key event's |
| IdentityReference.TablesFollowDirectory | hub/db/_identity_repository.py:61-332 | over every run the author, key, credential and audit rows are exactly those of the directory, revocation times included, and each operation is refused exactly when the directory says so, with that error |
| IdentityReference.AuthorsAreAsRegistered | hub/db/_identity_repository.py:78-85 | in every state an author row is there exactly for a committed registration, the only one with its id, and still has its subject and handle |
| IdentityReference.AnswersFollowDirectory | hub/security/author_identity.py:378-415 | a token is answered exactly for the active profile whose latest unexpired token it is, with that profile's subject, handle, public key and credential |
| IdentityReference.AnswersAsRegistered | hub/security/author_identity.py:409-415 | the subject and handle in an answer are those of the author's one registration |
| IdentityRepository.AuthorIdentityRepository.UpdateKey | hub/db/_models.py:437-503 | one guarded update of a key row inside a cascade |
| IdentityRepository.AuthorIdentityRepository.UpdateCredential | hub/db/_models.py:520-603 | one guarded update of a credential row inside a cascade |
| IdentityRepository.AuthorIdentityRepository.UpdateAuthor | hub/db/_models.py:248-406 | one guarded update of the author row inside a cascade |
| IdentityRepository.AuthorIdentityRepository.Apply | hub/db/_models.py:749-906 | the updates of a cascade in their order |
| IdentityRepository.AuthorIdentityRepository.InsertAudit | hub/db/_models.py:634-748 | the audit insert with its cascade, or the tables from before the transaction |
| IdentityRepository.AuthorIdentityRepository.Register | hub/db/_identity_repository.py:61-127 | pending rows and the registration event in one transaction; the columns afterwards are IdentityReference.TablesFollowDirectory |
| IdentityRepository.AuthorIdentityRepository.RotateAuthorKey | hub/db/_identity_repository.py:129-201 | key rotation under the expected revision, in one transaction |
| IdentityRepository.AuthorIdentityRepository.RotateAuthorCredential | hub/db/_identity_repository.py:203-275 | credential rotation under the expected revision, in one transaction |
| IdentityRepository.AuthorIdentityRepository.Revoke | hub/db/_identity_repository.py:277-332 | revocation of the author with its active key and credential, in one transaction |
| IdentityRepository.AuthorIdentityRepository.FindActiveKey | hub/db/_identity_repository.py:413-425 | an active author's active key exists and is the one the audit says is current |
| IdentityRepository.AuthorIdentityService.Register | hub/security/author_identity.py:194-250 | issues a token that expires one lifetime after the request, stores its digest only, and ends as the directory says |
| IdentityRepository.AuthorIdentityService.ReplaceKey | hub/security/author_identity.py:252-290 | rotates the key, after checking that the expected revision is positive |
| IdentityRepository.AuthorIdentityService.ReplaceCredential | hub/security/author_identity.py:292-341 | rotates the credential and issues a new token |
| IdentityRepository.AuthorIdentityService.Revoke | hub/security/author_identity.py:343-376 | revokes the author |
| IdentityRepository.AuthorIdentityService.Authenticate | hub/security/author_identity.py:378-415 | accepts a token exactly when it is the author's current, unexpired one in the service's whole history, and answers with the subject and handle of the author's one registration |
| Paths.SplitFolded | hub/storage/tarball.py:283-291 | folding a path folds its components, so both lists have the same length |
| Paths.StartsWithIffBelow | hub/storage/tarball.py:305-308 | the string prefix test holds exactly for the paths below |
| PathCheck.SeenPaths.RecordSpellings | hub/storage/tarball.py:287-297 | the spelling dictionary refuses exactly the paths that spell a shared prefix otherwise |
| PathCheck.SeenPaths.HasFileParent | hub/storage/tarball.py:299-304 | finds a regular-file ancestor exactly when one was seen |
| PathCheck.SeenPaths.Admit | hub/storage/tarball.py:276-311 | a member is admitted exactly when it is compatible with every earlier one |
| PathCheck.CheckAll | hub/storage/tarball.py:276-311 | a member sequence is accepted exactly when its members are pairwise compatible |
| ArchiveTree.OrderIsIrrelevant | hub/storage/tarball.py:276-311 | acceptance does not depend on the order of the members |
| ArchiveTree.AcceptedExtracts | hub/storage/tarball.py:276-311 | an accepted archive extracts without conflict, even where case is ignored, to the tree it describes |
| ArchiveTree.ExtractionIsUnambiguous | hub/storage/tarball.py:276-311 | and that tree is the same in every order |
| JsonGraph.CleanUnrolls | hub/security/signing.py:116-141 | "no way down repeats a container or meets a non-JSON value or key" unrolls one container at a time |
| JsonGraph.UnfoldedFloats | hub/security/signing.py:112-115 | only finite numbers remain in the tree |
| JsonWalk.Walker.Validate | hub/security/signing.py:109-144 | terminates on every finite graph, restores the ancestor set, and accepts exactly when no cycle and nothing but JSON can be reached |
| JsonWalk.Walker.Snapshot | hub/storage/tarball.py:457-500 | returns the tree under the value, exactly when it is clean and no mapping repeats a key |
| GraphText.GraphTextIsTreeText | hub/security/signing.py:155-161 | the encoder, walking the graph, writes exactly the canonical text of the tree under a clean value |
| GraphText.SnapshotKeepsTexts | hub/storage/tarball.py:457-527 | a snapshot has the same canonical text and the same signed text as the original graph value |
| JsonText.IntegerOfDecimal | hub/security/signing.py:155-161 | decimal integers read back |
| JsonText.UnescapeEscaped | hub/security/signing.py:155-161 | every escaped character reads back, whatever follows |
| JsonRoundTrip.ParseRendered | hub/security/signing.py:155-161 | a parser undoes the canonical text, whatever follows it |
| JsonRoundTrip.RenderInjective | hub/security/signing.py:155-161 | different values have different texts |
| JsonOrder.SortedUnique | hub/security/signing.py:155-161 | sorted entries are determined by what can be looked up |
| TextRules.BeforeIffSmaller | hub/security/signing.py:155-161 | keys are ordered by the code point at their first difference, a proper prefix first |
| TextRules.CanonicalKeysAscend | hub/security/signing.py:155-161 | in the canonical text the keys of every mapping ascend, at every depth |
| TextRules.TextsAreCompact | hub/security/signing.py:155-161 | elements are separated by a comma and a key from its value by a colon, without blanks |
| TextRules.EscapesAreSpelled | hub/security/signing.py:155-161 | which characters are escaped, and how |
| TextRules.ExampleText | hub/security/signing.py:147-161 | the signed text of a manifest with unsorted keys and a signature |
| CanonicalManifest.NormDecides | hub/security/signing.py:155-161 | sorting keys at every depth forgets exactly the order of entries |
| CanonicalManifest.CanonicalTextDecides | hub/security/signing.py:147-161 | equal canonical texts mean equal values up to the order of entries, and a parser recovers the value |
| CanonicalManifest.ManifestTextDecides | hub/storage/tarball.py:525-535 | comparing the signed bytes decides exactly "equal except for the top-level signature" |
| Base64.DecodeEncoded | hub/security/signing.py:45-65 | decoding undoes encoding |
| Base64Rules.SymbolsAreTheAlphabet | hub/security/signing.py:45-65 | the symbols are the standard alphabet of RFC 4648, in its order |
| Base64Rules.EncodingSpellsGroups | hub/security/signing.py:45-65 | every three bytes are written as the four base-64 digits of their number, with padding for missing bytes |
| Base64Rules.KnownEncodings | hub/security/signing.py:45-65 | examples of section 10 of RFC 4648 |
| Base64Rules.WirePrefix | hub/security/signing.py:105-106 | a signature is written as "ed25519:" and its base64 |
| Base64.StrictIffEncoding | hub/security/signing.py:45-65 | strict decoding accepts exactly one string per byte string of the required length |
| Base64.SignatureBijection | hub/security/signing.py:68-83 | decoding and writing a signature are mutually inverse on 64-byte signatures |
| Base64.AcceptedSignature | hub/security/signing.py:68-83 | every accepted signature has 96 characters and is written back as it was |
| Base64.WireSignatureInjective | hub/security/signing.py:105-106 | different signatures have different wire forms |
| SkillValidation.ParseTrigger | hub/core/validation.py:194-281 | one trigger is accepted exactly when the rules of its tier hold; over the document they are PackageRules.TriggerConformsIff |
| PackageRules.TiersAreLetters | hub/core/validation.py:164-168 | a tier is read off the text "A", "B", "C" or "D", and any other value is refused |
| PackageRules.TriggerConformsIff | hub/core/validation.py:194-281 | the rules on a trigger over its fields: names, types, tier, escalation, policy and safe default |
| SkillValidation.ParseTriggers | hub/core/validation.py:189-283 | the loop accepts exactly the non-empty lists of valid triggers with distinct names |
| SkillPackage.ParseSensors | hub/core/validation.py:171-186 | the loop accepts exactly the valid sensor lists with distinct types |
| SkillPackage.SearchFindsAll | hub/core/validation.py:398-399 | the search for placeholders finds every one, since they cannot overlap |
| SkillPackage.ParsePrompts | hub/core/validation.py:390-404 | prompts are accepted exactly when each is text with at most sixteen placeholders |
| SkillActions.ParseAvailable | hub/core/validation.py:290-311 | the loop accepts exactly the valid declarations with distinct names, and its table holds exactly them |
| SkillActions.CheckReferences | hub/core/validation.py:328-351 | default references are accepted exactly when declared, distinct and allowed by the trigger's tier |
| SkillActions.CheckDefaults | hub/core/validation.py:328-385 | one trigger's defaults are accepted exactly when the safe-default and physical-action rules hold too |
| SkillActions.CheckAllDefaults | hub/core/validation.py:313-385 | the defaults name exactly the triggers |
| SkillActions.ParseActions | hub/core/validation.py:286-387 | the whole section, exactly |
| SkillActions.Validate | hub/core/validation.py:407-455 | a package is accepted exactly when it keeps every rule, and its triggers and actions are read off |
| PackageRules.TableIsDocument | hub/core/validation.py:296-311 | an action has a tier in the table exactly when some element declares its name with that letter |
| PackageRules.DefaultsConformIff | hub/core/validation.py:328-385 | the rules on a trigger's defaults over the letters of the declarations |
| PackageRules.PackagesConformIff | hub/core/validation.py:407-455 | the validation accepts exactly the documents that conform |
| PackageRules.DeclaresIffSays | hub/core/validation.py:44-47 | an accepted package has Tier C/D authority exactly when "C" or "D" stands in a trigger or in an available action |
| PackageRules.ListedDocumentsActSafely | hub/core/validation.py:369-387 | without such a letter every default is declared with "A" or "B", and a "B" among them is approved first, or reported through an "A" by a trigger that says "B" and "post_action" |
| Review.PublishDecision | hub/core/review.py:20-34 | a document is rejected exactly when it does not conform, and waits for review exactly when "C" or "D" stands in a trigger or in an available action; what is listed acts safely |
| SkillActions.ListedPackagesActSafely | hub/core/validation.py:369-387 | a package listed at once has only Tier A/B defaults, and each trigger with a Tier B default needs approval, or is a Tier B post-action trigger that also has a Tier A default |
| Archive.CanonicalIsStable | hub/storage/tarball.py:187-234 | canonical names, under all the rules on characters, components, lengths and device names, stay canonical, with or without a directory's slash |
| Archive.InspectEntry | hub/storage/tarball.py:338-416 | one member is accepted exactly when the rules on it alone hold; over the characters they are ArchiveRules.NamesAllowedIff |
| Archive.Inspect | hub/storage/tarball.py:324-444 | an archive is accepted exactly when its members are valid, compatible, within the limits, confined and contain one manifest; spelled out in ArchiveRules.ArchivesAcceptedIff |
| Archive.InspectTarball | hub/storage/tarball.py:324-444 | and the stream around the members is within its size limits and properly ended; what is accepted stays inside, by ArchiveRules.MembersStayInside |
| ArchiveRules.NamesAllowedIff | hub/storage/tarball.py:187-234 | a name is taken exactly when it has no backslash, colon, control character or leading slash, no component is empty, ".", "..", a device name, too long or ends in a space or dot, and the whole is normal and short enough; and then as it stands |
| ArchiveRules.ArchivesAcceptedIff | hub/storage/tarball.py:324-444 | the whole inspection as rules on the names, kinds, sizes, the one manifest and its directory |
| ArchiveRules.MembersAreAsWritten | hub/storage/tarball.py:409-416 | what is read of an accepted archive: names, kinds, modes and contents in order |
| ArchiveRules.MembersStayInside | hub/storage/tarball.py:187-205 | following any member's name from the root never leaves it and ends at exactly the name's components, inside the manifest's directory if it has one |
| Rebuild.SerialiseSigned | hub/storage/tarball.py:503-553 | accepts exactly the clean mappings with a well-formed signature that equal the original apart from it |
| Rebuild.WrittenEntry | hub/storage/tarball.py:556-567 | a written member passes the inspection as the same member |
| Rebuild.ModesAreNormal | hub/storage/tarball.py:556-561 | directories and executables are written with mode 755, other files with 644 |
| Rebuild.RebuildPreservesMeaning | hub/storage/tarball.py:570-619 | the rebuilt archive has the same names, kinds, order, execute bits and other payloads and the same unsigned manifest; rebuilding it again is a fixed point |
| Rebuild.RebuiltTarballIsFixed | hub/storage/tarball.py:587-619 | rebuilding the rebuilt archive with the same signed mapping fits and gives it back |
| Rebuild.RebuildTarball | hub/storage/tarball.py:570-619 | succeeds exactly when the archive is accepted, the mapping is properly signed and otherwise unchanged, and the result fits every limit |
| PollLoop.BackoffClosedForm | hub/integrations/scan.py:280-285 | the waits are the doubled first wait, cut off at the longest |
| PollLoop.RequestsAreBounded | hub/integrations/scan.py:264-285 | the sum of the waits bounds the number of requests |
| PollLoop.Poll | hub/integrations/scan.py:254-291 | stops for every sequence of replies, answers with the first settled reply that the schedule reaches before the deadline, sleeps no longer than the time it has, and sends fewer requests than one plus that time divided by the first wait |

## Left out

- RebuildTarball: gzip, tar and YAML byte formats; an archive is its member list, its two stream sizes and whether it is ended properly, and nothing is claimed about padding inside a member's last block.
- CanonicalIsStable: which characters are control, format or surrogate characters, which names are in NFC and how wide a character is in UTF-8 are taken as given.
- Walker.Validate: Python's recursion limit, which refuses very deep values that the model accepts; sequences other than lists and tuples.
- CanonicalTextDecides: floats keep the text of their numeral, and the final UTF-8 encoding is not spelled out; texts with lone surrogates, which that encoding refuses, do not exist in the model.
- RegisterAuthor: trimming and length checks of text fields and key decoding; several credential kinds per author; the unused `expired` status; the token pattern.
- CommittedDigestsAreReadable: signature and manifest checks before the two stores; the manifest digest, and the author's digest when the scan is not deferred, name no stored object.
- WaitingJobIsPassedOnceByEach: runs in which some claim takes over an expired lease; there a crashed job may pass again.
- Publish: the archive and the skill row are one row, because they are created together and never change their identity; signatures, sizes, free text, correlation ids and update stamps are dropped, and all uniqueness conflicts are one error.
- RunOnce: latency measurement; retry jitter is a parameter of the step.
- Poll: the HTTP exchange itself; the settled reply carries the verdict that `CompletedVerdict` gives, or the failure.
- Download counters, listing queries, their limits and order, and scan metrics: simple queries and counters.
- The length limit of encoded scan counts: larger counts already make the write raise, which is modelled.
- HTTP routes, configuration, key files and migrations: plumbing. Ed25519 itself: a primitive this repository only calls.
- SQL writers that bypass the repositories.
