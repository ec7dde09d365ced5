# Verified model of kantaq's audit log, commit log, and portable formats

kantaq is a local-first tracker for small teams. Every change is an event; a self-hosted backend puts
the events of a workspace in one order; each runtime keeps an audit log linked by hashes. This project
models the parts whose correctness cannot be seen in one function, and proves what they promise over
whole runs, for all inputs.

**The audit log** (`AuditChain`, `AuditWindow`, `AuditRetention`, `AuditRuns`, `AuditLog`, `ReadLog`,
`Merkle`, `Canonical`, `CanonicalText`). A table of rows ordered by id, each linked to the one before it by
the hash of its canonical JSON, whose range of numbers, depth and number of bytes are bounded. Verification
walks a window and names the first break; anchors fold a window into a Merkle root; a summary blanks old
detail and relinks; a read log batches reads. `AuditLog.AuditLog` and `ReadLog.AgentReadLog` are the classes
that update these in place; their methods are tied to the specification functions, and the lemmas are about those.

**The commit log** (`SyncEvents`, `CommitLog`, `Contention`, `SyncStore`, `CommitConcurrency`,
`SerialCommits`, `Pull`, `PullUnderCommits`, `Convergence`, `SyncSurface`). The sequential commit validates, deduplicates, and on
request compares and swaps.
`SyncStore` has the backend and its client as classes. `CommitConcurrency` is a step system of any number
of transactions with a shared identity sequence and one lock per workspace, in which commit order need
not be revision order unless the lock makes it so. `Convergence` is one of replicas that write, flush and
pull.

**Portable formats** (`Text`, `Sequences`, `EventStore`, `Bundle`, `BundleRoundTrip`, `BundleNormalForm`,
`BundleContents`, `BundleTrust`, `BundleRuntime`, `Revival`, `Refold`, `ForeignKeys`, `Rebuild`, `Delta`,
`LinearImport`, `LinearSession`, `LinearRerun`, `LinearPrefix`, `LinearPull`, `Encodings`, `Enroll`,
`EnvFile`). Export and import of the event log, the tables rebuilt from it, incremental exports, the importer from Linear, the enrollment
envelope and the merge into `.env`.

**What is assumed.** SHA-256 is a free constructor in the audit log (a hash determines what was hashed,
node and leaf hashes differ), an injective function in the bundle, and injective on (kind, external id) in
the importer. Authenticated encryption opens exactly what was encrypted under the same key and nonce.
Signature checks, the event codec and JSON text are function parameters with the laws they need
(`Bundle.IsCanonical`, `Enroll.AreSound`; `BundleExample.PlainBundleRoundTrips` and
`EnrollExample.OpenToolsAreSound` show that they can be met). A new audit id is larger than those there
are and is spelled with 26 digits. Instants, ids and random bytes are parameters. Runs begin where
`AuditRuns.EmptyLogIsGood`, `ReadLog.IdleIsGood` and `Convergence.EmptyIsGood` say that the invariants hold.

**Where the code and its documentation part.** The model follows the code.
- `range_is_anchored` looks only at where anchors end, so a summary can blank a row no anchor holds:
  `AuditRuns.AnchorOfTailLosesOriginal`. It cannot when every anchor starts at genesis.
- `summarize_rows` returns the length of the list it was given, which is the number of rows blanked only
  for distinct, present ids: `AuditRetention.SummaryCountsRowsIff`, `AuditRetention.RepeatedIdIsCountedTwice`.
- `AgentReadLog.flush` takes all tallies before it writes, so a write that raises loses the rest. It raises
  past the codec's range of integers (`ReadLog.HugeReadIsLost`) and past its one mebibyte
  (`ReadLog.LongReferenceIsLost`, `ReadLog.ManyObjectsCannotBeWritten`). `ReadLog.ReadsAreConserved` says
  exactly when none does.
- Blanking turns an empty detail `{}` into the longer `null`, so a record near the bound can make every
  summary that names it raise: `AuditRetention.EmptyDetailCannotBeBlanked`; otherwise it cannot
  (`AuditRetention.DetailedCanBeBlanked`), and exactly when is `AuditRetention.SummarizeIsRebuild`.
- Compare-and-swap is decided before the dedup floor, so a harmless retry can be refused:
  `CommitLog.CasRefusesRetry`.
- A refusal is reported for the first event of the batch with the refused one's id: `SyncStore.WrongEventIsRefused`,
  `SyncStore.RefusalNamesEventIff`.
- Two events of one batch with one id and one key are stored as the first and reported as the second:
  `SyncStore.WrongEventIsReported`, and exactly when is `SyncStore.MatchedExactlyIff`.
- An actor's events are numbered from the local log alone, so an actor that writes on two replicas can use
  a number twice; the backend keeps one event, both are acknowledged, and the replicas differ for good:
  `Convergence.SharedActorDiverges`. It cannot when no actor writes on two replicas.
- On a contention the client names the first patch of the batch and not the contending event, although the
  server sends its id: `SyncStore.WrongPatchIsNamed`.
- Canonical JSON leaves U+0085, U+2028 and U+2029 as they are, and the importer splits the event files with
  `str.splitlines`, so a bundle with such a character in an event is refused:
  `BundleExample.SeparatorIsRefused`; `BundleNormalForm.ImportOntoIff` says exactly which events are inserted.
- An import folds the tickets in whatever order the query gives, and each row must find its parent there, so
  a bundle with a ticket made before its later parent can be refused after all its events have been
  inserted: `Rebuild.ChildBeforeParentIsRefused`, and exactly when is `Rebuild.ImportInOrderIff`.
- A pull folds a batch in the order of first touch. A Linear export that lists a child before its parent is
  imported, but no replica can take in its events at once: `LinearPull.ChildListedFirstIsNotTaken`,
  `LinearPull.PulledAtOnceIff`.
- An import renumbers revisions but not the bases of events, and commits deletions that were pending, so
  folding again can keep out a write that was in: `Refold.ImportLosesRestoredEntity`, and exactly when is
  `Refold.ImportKeepsRowIff`. The snapshot, whose fold knows no revisions, does not change.
- A delta's cursor covers only what was pulled before it: a revision below it that arrives later is in no
  delta. `Delta.LatePullIsMissed`, and exactly when is `Delta.DeltasJoinIff`.
- The Linear importer is idempotent only as far as every comment has an id or a time stamp:
  `LinearRerun.RerunDuplicatesComment`.
- Replicas can fold `follow_ups`, but the backend's check constraint does not let them into the log:
  `SyncSurface.OnlyFollowUpsAreRefused`, `SyncSurface.FollowUpsNeverCommit`.
- Sealing an enrollment payload checks neither the payload's rules nor the size cap that opening enforces:
  `Enroll.EmptyTokenDoesNotOpen`, `Enroll.SealThenUnsealIff`.
- `.env` values with a line break leave stray lines that merging again multiplies: `EnvFile.BrokenUrlAccumulates`,
  `EnvFile.MergeIsIdempotentIff`.

## Model

| member | source | states |
|---|---|---|
| AuditChain.EpochMicrosIsInjective | packages/core/src/kantaq_core/audit.py:110-120 | Two instants with the same count of microseconds are the same instant. |
| AuditChain.ChainRecordIsInjective | packages/core/src/kantaq_core/audit.py:123-133 | The chained record loses nothing of a row: equal records mean equal content. |
| AuditChain.WalkPassesIff | packages/core/src/kantaq_core/audit.py:266-299 | The loop reports success exactly when every link recomputes and the last hash is the expected one. |
| AuditChain.WalkStopsAt | packages/core/src/kantaq_core/audit.py:266-299 | The first row whose link does not fit is the one reported, whatever follows it. |
| AuditChain.TamperEvidence | packages/core/src/kantaq_core/audit.py:241-299 | A table verifies from genesis against the tip of an honest log if and only if it is that log. |
| AuditChain.ChainIsDeterminedByTip | packages/core/src/kantaq_core/audit.py:136-144 | Two valid chains with the same tip are the same table. |
| AuditChain.EditIsLocated | packages/core/src/kantaq_core/audit.py:270-299 | An edit of the content of row k of an honest log is reported at row k, or raises when the codec does not accept the new content. |
| AuditChain.RemovalIsLocated | packages/core/src/kantaq_core/audit.py:270-299 | The removal of an interior row is reported at the row after it. |
| AuditChain.TruncationIsReported | packages/core/src/kantaq_core/audit.py:270-299 | Removing the tail is reported as truncation at the last row left. |
| AuditChain.InsertionIsLocated | packages/core/src/kantaq_core/audit.py:270-299 | A row inserted before the end is reported itself, or if its own link is right the row after it is. |
| AuditChain.WindowsCompose | packages/core/src/kantaq_core/audit.py:241-299 | The whole table verifies if and only if two adjacent windows do. |
| AuditWindow.LinkFailsIff | packages/protocol/src/kantaq_protocol/hashing.py:53-73 | A link cannot be computed exactly when the hash before it is text other than 64 lower-case hexadecimal digits, or the record cannot be written. |
| AuditWindow.ChainedIff | packages/core/src/kantaq_core/audit.py:285-294 | Rows are chained exactly when each stores the hash of its own content and of the hash stored before it. |
| AuditWindow.VerifyAnswers | packages/core/src/kantaq_core/audit.py:267-299 | Between any two bounds, the rows from the one to the other, both included, are verified after the hash of the row before them: success at the last of them, truncation there, or the first break. |
| AuditWindow.WindowVerifiesIff | packages/core/src/kantaq_core/audit.py:267-299 | From the id of one row to that of another, verification passes if and only if the rows from the one to the other are chained onto the hash of the row before them and end on the expected tip, if there is one. |
| CanonicalText.InProfileIff | packages/protocol/src/kantaq_protocol/canonical.py:83-126 | A value is in the profile exactly when each value in it is at most at level 64, no float, and no integer past 2^53-1 in magnitude. |
| CanonicalText.SizeIsBytes | packages/protocol/src/kantaq_protocol/canonical.py:83-144 | The size that the bound is about is the number of bytes in UTF-8 of the value's canonical text. |
| CanonicalText.EscapedReadsBack | packages/protocol/src/kantaq_protocol/canonical.py:103-107 | What is written between quotes is read as the text again. |
| CanonicalText.EncodableIff | packages/core/src/kantaq_core/audit.py:123-133 | The record of a row can be written exactly when its nine values are in the profile and its text takes at most 1048576 bytes. |
| AuditRetention.AnchorPinsEntries | packages/core/src/kantaq_core/audit.py:302-365 | Two tables anchored over the same range to the same root have the same content in it. |
| AuditRetention.AnchorIsOfWindow | packages/core/src/kantaq_core/audit.py:334-365 | An anchor between two bounds has the first and last id, the number, the root and the last hash of the rows between them; it is refused for no rows, and at the first row without a hash or that the codec does not accept. |
| AuditRetention.AnchorWithinBounds | packages/core/src/kantaq_core/audit.py:334-365 | Its range lies between the bounds, and its tree has as many leaves as the table has rows in the range. |
| AuditRetention.UnanchoredIff | packages/core/src/kantaq_core/audit.py:377-411 | The gate refuses exactly when every anchor ends before one of the ids. |
| AuditRetention.SummarizeLeaves | packages/core/src/kantaq_core/audit.py:416-443 | Past the gate, only the details of the rows named are gone, rows before all of them are as they were, and when it succeeds every row from the first of them on is linked to the one before it. |
| AuditRetention.SummarizeIsRebuild | packages/core/src/kantaq_core/audit.py:384-443 | From a valid chain, a summary that passes the gate succeeds exactly when every row named is within the codec's bound once its details are null; relinking from the earliest of them then gives the table that rebuilding all of it would. |
| AuditRetention.SummarizeKeepsChain | packages/core/src/kantaq_core/audit.py:384-443 | Such a summary leaves a valid chain, changes only the detail of the rows named, and touches no row before the earliest. |
| AuditRetention.SummariesCompose | packages/core/src/kantaq_core/audit.py:384-443 | Summarizing by two lists one after the other succeeds when summarizing by both at once does, and leaves the same. |
| AuditRetention.SummarizeIsIdempotent | packages/core/src/kantaq_core/audit.py:384-443 | Unless it raised in the middle, summarizing again by the same list changes nothing. |
| AuditRetention.SummaryCountsRowsIff | packages/core/src/kantaq_core/audit.py:384-443 | What a passed summary returns is the number of rows it names exactly when the ids are distinct and present. |
| AuditRetention.RepeatedIdIsCountedTwice | packages/core/src/kantaq_core/audit.py:384-443 | A summary that names a row twice returns 2. |
| AuditRetention.DetailedCanBeBlanked | packages/core/src/kantaq_core/audit.py:418-442 | A record within the bound stays so without its details, unless one of them is an empty object. |
| AuditRetention.EmptyDetailCannotBeBlanked | packages/core/src/kantaq_core/audit.py:418-442 | A row that can be written and anchored, and that every summary naming it fails on. |
| AuditRuns.RunsKeepInv | packages/core/src/kantaq_core/audit.py:147-443 | In every run of writes, anchors and summaries the chain stays valid, content changes only by blanking, and every anchor commits to the unblanked records of its range. |
| AuditRuns.ProvesIffInRange | packages/core/src/kantaq_core/audit.py:341-365 | An anchor proves the original record of an unblanked row exactly when the row is in its range. |
| AuditRuns.SummaryKeepsAnchorFirstIff | packages/core/src/kantaq_core/audit.py:368-415 | A summary that passes the gate leaves every original provable if and only if each row it newly blanks is in the range of some anchor, or one cannot be blanked and it raises. |
| AuditRuns.AnchorFirstOverRuns | packages/core/src/kantaq_core/audit.py:368-415 | In every run whose anchors start at genesis, each row ever blanked has an anchor whose leaves hold its original record. |
| AuditRuns.AnchorOfTailLosesOriginal | packages/core/src/kantaq_core/audit.py:368-381 | A run with an anchor over the last row alone blanks the first row unproven. |
| AuditLog.AuditLog.Write | packages/core/src/kantaq_core/audit.py:147-195 | Refuses a blank actor, a blank or too long action and a source other than app, cli, mcp and sync, each with its own error, and a record that cannot be written; otherwise appends the row given, linked to the tip. |
| AuditLog.AuditLog.VerifyChain | packages/core/src/kantaq_core/audit.py:241-299 | The loop gives the verdict on the rows between the bounds, after the hash of the row before them. |
| AuditLog.AuditLog.Anchor | packages/core/src/kantaq_core/audit.py:302-365 | Records the anchor of the rows between the bounds, which lies within them, or raises and records none. |
| AuditLog.AuditLog.SummarizeRows | packages/core/src/kantaq_core/audit.py:384-443 | Refuses when every anchor ends before one of the ids; otherwise blanks the rows named and relinks in place from the first of them on; from a valid chain it succeeds exactly when every row named can be blanked, and then leaves a valid chain. |
| ReadLog.FlushWriteFailsIff | packages/core/src/kantaq_core/audit.py:491-509 | The write of a summary raises exactly when its sums or its time stamp are out of the range of the codec, or its canonical record takes more than a mebibyte. |
| ReadLog.NextConserves | packages/core/src/kantaq_core/audit.py:471-509 | Each step of recording, starting a flush, writing a summary or other writing conserves each actor's reads and bytes. |
| ReadLog.NextDropsIff | packages/core/src/kantaq_core/audit.py:491-509 | A step loses a batch exactly when it is a summary write outside that guard. |
| ReadLog.ReadsAreConserved | packages/core/src/kantaq_core/audit.py:471-509 | In every interleaving, reads logged, pending, in flight and dropped add up to reads accepted, per-object counts stay below reads and the chain stays valid; nothing is dropped exactly when the codec can write every summary come to. |
| ReadLog.NothingIsDropped | packages/core/src/kantaq_core/audit.py:471-509 | As long as no agent's accepted reads and bytes add up past the range, and the longest summary of all the objects it reads fits, no interleaving drops anything. |
| ReadLog.HugeReadIsLost | packages/core/src/kantaq_core/audit.py:491-509 | A run in which one read past the range is accepted and no row ever logs it. |
| ReadLog.LongReferenceIsLost | packages/protocol/src/kantaq_protocol/canonical.py:133-144 | So is a read of one byte of an object whose name fills a document. |
| ReadLog.ManyObjectsCannotBeWritten | packages/protocol/src/kantaq_protocol/canonical.py:133-144 | The summary of an agent that has read enough objects, however short their names, cannot be written. |
| ReadLog.AgentReadLog.RecordRead | packages/core/src/kantaq_core/audit.py:477-489 | Adds one read to its actor's tally and object's count, or refuses a blank actor. |
| ReadLog.AgentReadLog.Flush | packages/core/src/kantaq_core/audit.py:491-509 | Empties the tallies; on a valid chain succeeds exactly when the codec can write every agent's summary, and then logs every read in them, in one row of action agent.read and source mcp for each agent; on failure logs none twice. |
| Merkle.SplitPointIsUnique | packages/protocol/src/kantaq_protocol/merkle.py:76-81 | The split is the one power of two k with k below n and n at most 2k. |
| Merkle.FindSplitPoint | packages/protocol/src/kantaq_protocol/merkle.py:76-81 | The doubling loop finds the split of section 2.1 of RFC 6962. |
| Merkle.RootBinding | packages/protocol/src/kantaq_protocol/merkle.py:84-100 | Two leaf lists with the same root are the same list, of any lengths. |
| Merkle.AscendIsExact | packages/protocol/src/kantaq_protocol/merkle.py:103-123 | From a leaf digest exactly one path leads to the root, the honest one, and only for the leaf that is there. |
| Merkle.VerifyInclusionProof | packages/protocol/src/kantaq_protocol/merkle.py:126-165 | The bit-shifting loop accepts exactly what its recursive form accepts, and never raises. |
| Merkle.ClimbIsAscend | packages/protocol/src/kantaq_protocol/merkle.py:126-165 | The bottom-up loop over index bits computes what the tree prescribes top down. |
| Merkle.InclusionProofIsExact | packages/protocol/src/kantaq_protocol/merkle.py:103-165 | Against a root, a proof is accepted if and only if it is the honest proof of the leaf at that index. |
| Merkle.HonestIsWellSpelled | packages/protocol/src/kantaq_protocol/merkle.py:103-150 | A root and an honest proof are spelled as the verifier asks. |
| SyncEvents.ConflictsAreDetected | packages/sync_engine/src/kantaq_sync_engine/merge.py:111-188 | A patch is in conflict with the last unseen deletion, and otherwise over each field whose last unseen setter brings another value, with that row's revision and both values; it meets none exactly when there is neither. |
| SyncEvents.NoConflictLosesNothingIff | packages/sync_engine/src/kantaq_sync_engine/merge.py:119-188 | A patch without a conflict overwrites only what its writer saw or its own value exactly when the last unseen patch of the field, if any, set it to the value that arrives or back to the value seen. |
| SyncEvents.NoConflictLosesNothing | packages/sync_engine/src/kantaq_sync_engine/merge.py:119-188 | So it loses nothing unless an unseen append names the field. |
| SyncEvents.AppendHidesPatch | packages/sync_engine/src/kantaq_sync_engine/merge.py:111-116 | When one does, something can be lost: the append is taken for the head of a field it does not set. |
| CommitLog.CommitKeepsValid | adapters/backend-postgres/src/kantaq_backend_postgres/commit.py:171-273 | A commit extends the log at its end with increasing revisions and unique keys, or leaves it as it was. |
| CommitLog.CommitDraws | adapters/backend-postgres/src/kantaq_backend_postgres/commit.py:195-273 | A refused batch names the event after the part that could be committed; its rows are taken back and the revisions it drew are not. |
| CommitLog.UnlistedNeverCommits | adapters/backend-postgres/src/kantaq_backend_postgres/commit.py:221-239 | A batch with an event of a collection that the check constraint does not list is never committed. |
| SyncSurface.OnlyFollowUpsAreRefused | adapters/backend-postgres/src/kantaq_backend_postgres/schema.py:55-70 | Of the collections a replica can fold, the constraint leaves out follow-ups and no other. |
| SyncSurface.FollowUpsNeverCommit | adapters/backend-postgres/src/kantaq_backend_postgres/schema.py:103-107 | A batch with a follow-up is never committed, whatever the log. |
| CommitLog.CommitSplits | adapters/backend-postgres/src/kantaq_backend_postgres/commit.py:195-273 | Committing xs + ys succeeds exactly when committing xs and then ys does, with the same log and the results joined. |
| CommitLog.RetryChangesNothing | adapters/backend-postgres/src/kantaq_backend_postgres/commit.py:240-260 | A committed batch submitted again at any later time leaves the log alone and is answered as duplicates with the revisions it had. |
| CommitLog.CasRefinesCommit | adapters/backend-postgres/src/kantaq_backend_postgres/commit.py:197-219 | Compare-and-swap raises at the first contention with its conflicts, and without one is plain commit with no conflict reported; what a contention is, is said by Contention.CasCommitsIff. |
| Contention.CasCommitsIff | adapters/backend-postgres/src/kantaq_backend_postgres/commit.py:197-273 | On a valid log, compare-and-swap refuses an event exactly when it is a patch of a merged collection and a row of its entity past its base deletes it or is the last to name one of its fields and brings another value; it commits it exactly when that is not so, the log lists its collection and its keys are free. What it refuses with, and what a plain commit reports, are those rows and values. |
| Contention.CasRefusesFirstContended | adapters/backend-postgres/src/kantaq_backend_postgres/commit.py:197-219 | In a batch, the event refused is the first that is contended in the log left by those before it. |
| Contention.CasCommitsUncontended | adapters/backend-postgres/src/kantaq_backend_postgres/commit.py:197-273 | A batch without such an event ends as a plain commit of it does. |
| Contention.BatchReports | adapters/backend-postgres/src/kantaq_backend_postgres/commit.py:210-273 | In the log that a batch leaves and in every later one, each committed result tells the conflicts with the rows between its event's base and its own revision; under compare-and-swap there are none. |
| CommitLog.CleanCommitPassesCas | adapters/backend-postgres/src/kantaq_backend_postgres/commit.py:197-273 | A plain commit with no conflict and no duplicate would have passed compare-and-swap. |
| CommitLog.CasRefusesRetry | adapters/backend-postgres/src/kantaq_backend_postgres/commit.py:216-243 | With a duplicate it need not: a retry that plain commit answers without a conflict is refused. |
| CommitLog.CommitOneLinks | adapters/backend-postgres/src/kantaq_backend_postgres/commit.py:210-214 | A committed result names the entity's revision just before it, in every later log, and reports its own base as stale exactly when a revision of the entity lies between (or the base is negative). |
| CommitLog.BatchLinks | adapters/backend-postgres/src/kantaq_backend_postgres/commit.py:210-273 | The same for every committed event of a batch. |
| SyncStore.SyncBackend.CommitBatch | adapters/backend-postgres/src/kantaq_backend_postgres/commit.py:207-273 | The loop of the second pass leaves the log and returns the results of the specification. |
| SyncStore.SyncBackend.CommitEvents | adapters/backend-postgres/src/kantaq_backend_postgres/backend.py:103-133 | The transaction: both passes, and what is raised rolls the rows back. On success there is one result for each event, with its id and the revision of its key, and the committed ones are linked and tell the rows that contend; under compare-and-swap the first contended event is refused, and nothing else changes. |
| SyncStore.SyncBackend.Push | adapters/backend-postgres/src/kantaq_backend_postgres/backend.py:135-166 | Push leaves the log that a plain commit without validation leaves, and returns exactly the rows it added. |
| SyncStore.SyncBackend.Pull | adapters/backend-postgres/src/kantaq_backend_postgres/backend.py:168-189 | On a quiet log, for every page size from 1 the loop ends and returns the rows of the workspace, and of the collection if one is given, above the cursor, in revision order, each once; for 0 it raises. |
| SyncStore.CommittedAreAdded | adapters/backend-postgres/src/kantaq_backend_postgres/commit.py:240-273 | The committed results of a batch are exactly the rows it added. |
| SyncStore.RefusalNamesEventIff | adapters/backend-postgres/src/kantaq_backend_postgres/client.py:141-164 | A refused batch reaches the caller as the refusal of one event, of the right one exactly when no earlier event of the batch shares its id. |
| SyncStore.RebaseNamesContenderIff | adapters/backend-postgres/src/kantaq_backend_postgres/client.py:141-144 | On a contention the client names the first patch, which is the contending event exactly when no patch comes before it. |
| SyncStore.WrongEventIsRefused | adapters/backend-postgres/src/kantaq_backend_postgres/client.py:159-164 | Of two events of one id, of which the server refuses the second, the first is reported. |
| SyncStore.WrongPatchIsNamed | adapters/backend-postgres/src/kantaq_backend_postgres/client.py:142-144 | A batch whose first patch is harmless has that patch named. |
| SyncStore.SyncClient.CommitEvents | adapters/backend-postgres/src/kantaq_backend_postgres/client.py:128-157 | When the server succeeds the client returns the server's list: one result for each event in order, with its id and the revision at which the log holds its key, duplicates included. Otherwise it raises the refusal of the first event with the refused id, the contention of the first patch, or a plain failure. |
| SyncStore.SyncClient.Push | adapters/backend-postgres/src/kantaq_backend_postgres/client.py:166-183 | The client returns the rows added, each with the last event of the batch that has its id; that is what was added exactly when no new event is followed by another content under its id. |
| SyncStore.MatchedExactlyIff | adapters/backend-postgres/src/kantaq_backend_postgres/client.py:177-183 | Of a commit that succeeds, matching by id yields the rows added exactly when no event with a key new to log and batch is followed by another content under its id. |
| SyncStore.WrongEventIsReported | adapters/backend-postgres/src/kantaq_backend_postgres/client.py:177-183 | A batch with two contents under one id and key, of which the first is stored and the second reported. |
| SyncStore.SyncClient.Pull | adapters/backend-postgres/src/kantaq_backend_postgres/client.py:185-197 | The client's loop over the endpoint, which already returns all pages, returns the same rows. |
| CommitConcurrency.NextKeepsInv | adapters/backend-postgres/src/kantaq_backend_postgres/commit.py:56-67 | Every locked step of any transaction keeps the rows of each workspace in revision order and every pending row behind the visible ones. |
| CommitConcurrency.CursorSafety | adapters/backend-postgres/src/kantaq_backend_postgres/commit.py:206-239 | In every interleaving, once a revision of a workspace is visible, whatever becomes visible later in it has a larger one. |
| CommitConcurrency.StampIsPredecessor | adapters/backend-postgres/src/kantaq_backend_postgres/commit.py:70-79 | In every interleaving, the head a transaction saw is the entity's revision just before its row, in every later state. |
| CommitConcurrency.HeadInIsHead | adapters/backend-postgres/src/kantaq_backend_postgres/commit.py:70-79 | The head in the step system is the head that the sequential commit computes. |
| CommitConcurrency.UnlockedInsertsBreakCursors | adapters/backend-postgres/src/kantaq_backend_postgres/backend.py:135-166 | Without the lock two rows can become visible against revision order. |
| SerialCommits.SerialRunCommits | adapters/backend-postgres/src/kantaq_backend_postgres/commit.py:195-273 | Whatever batch the sequential commit commits, a locked transaction that runs alone makes visible: the same rows at the same revisions, each stamped with the head that its result tells, and nothing else. |
| SerialCommits.RollbackLeavesNothing | adapters/backend-postgres/src/kantaq_backend_postgres/commit.py:56-67 | A transaction that is rolled back leaves the visible log as it was and gives up its locks; the revisions drawn are gone. |
| Pull.MatchingAfter | adapters/backend-postgres/src/kantaq_backend_postgres/backend.py:173-189 | Above the revision of the n-th matching row lie the matching rows without the first n. |
| Pull.PagesMissNothing | adapters/backend-postgres/src/kantaq_backend_postgres/backend.py:168-189 | Pages read from a safely growing log are exactly the matching rows up to the last one returned. |
| PullUnderCommits.LockedCommitsGrowSafely | adapters/backend-postgres/src/kantaq_backend_postgres/commit.py:56-67 | The visible log grows that way in every interleaving of locked transactions. |
| PullUnderCommits.PagesBetweenCommitsMissNothing | adapters/backend-postgres/src/kantaq_backend_postgres/backend.py:168-189 | With any locked commits between the pages, a pull misses no row up to the last one returned, and a short page completes it. |
| Text.ReadsBackIff | apps/local-runtime/src/kantaq_runtime/import_bundle.py:91-92 | A file of one record a line reads back as those records exactly when each is not blank and has no line break of any kind. |
| Text.QuotedBreaks | packages/protocol/src/kantaq_protocol/canonical.py:103-107 | A quoted string can be broken over lines exactly when its text has U+0085, U+2028 or U+2029. |
| EventStore.SortIsSorted | packages/sync_engine/src/kantaq_sync_engine/log.py:225-264 | Sorting is a permutation in the order of the resolution key. |
| EventStore.CollectionRowsAre | packages/sync_engine/src/kantaq_sync_engine/log.py:225-264 | A collection's rows are those of the log that are pending or committed, as often as they are there: first what is committed by revision, then the rest by actor, compared by code point, and number. |
| EventStore.EntityRowsOfCollection | packages/sync_engine/src/kantaq_sync_engine/log.py:207-229 | An entity's rows are those of its collection that are its own, in the same order. |
| BundleRoundTrip.ImportFileExactly | apps/local-runtime/src/kantaq_runtime/import_bundle.py:166-190 | An event file is imported exactly when each event stands on one line, passes the gate and clashes with nothing in the store, and then its events are numbered on. |
| BundleTrust.ImportIff | apps/local-runtime/src/kantaq_runtime/import_bundle.py:114-191 | Any archive is inserted exactly when its listed files are there unchanged, its actors and grants can be read, a signature that it has is some device's, and every record in the event files is an event with new keys that is vouched for: signed, under a grant to its actor whose issuer's root verifies it, or unsigned in an archive that a root attests. Its events are then numbered from 1. |
| BundleNormalForm.ImportOntoIff | apps/local-runtime/src/kantaq_runtime/import_bundle.py:142-191 | The events of an exported bundle are inserted into a store exactly when its actors and grants can be read, its signature, if any, verifies and each event stands on one line, passes the gate (BundleTrust.ImportIff says which do) and clashes with nothing in the store; all are then appended, numbered from 1. |
| BundleNormalForm.ImportAcceptsIff | apps/local-runtime/src/kantaq_runtime/import_bundle.py:142-191 | Into a fresh store they are exactly when actors and grants can be read, the signature verifies and each event stands on one line and passes. |
| BundleExample.SeparatorIsRefused | apps/local-runtime/src/kantaq_runtime/import_bundle.py:91-92 | An event with a line separator in its title is exported and signed, and the import refuses that very bundle. |
| BundleNormalForm.ReExportIsIdentical | apps/local-runtime/src/kantaq_runtime/export.py:105-116 | After an accepted import every collection exports the same file and every entity has the same snapshot state. |
| BundleNormalForm.SecondImportReproduces | apps/local-runtime/src/kantaq_runtime/import_bundle.py:162-190 | Exporting what was imported and importing that gives the same store, revisions included. |
| BundleNormalForm.ImportedCanBeExported | apps/local-runtime/src/kantaq_runtime/export.py:215-222 | The store that an import leaves can be exported, in full and from any cursor. |
| BundleNormalForm.ManifestPinsImport | apps/local-runtime/src/kantaq_runtime/import_bundle.py:114-139 | An archive with the manifest of an export is refused or imported as the export would be. |
| BundleRuntime.Runtime.CollectionEvents | apps/local-runtime/src/kantaq_runtime/export.py:105-116 | The loop writes the file of the rows taken, and finds the highest revision of all rows, taken or not. |
| BundleRuntime.Runtime.BuildBundle | apps/local-runtime/src/kantaq_runtime/export.py:190-265 | The loop over collections builds the specified bundle, or fails when an event has no canonical form. |
| BundleContents.ExportIs | apps/local-runtime/src/kantaq_runtime/export.py:190-265 | A bundle has the other files and one for each collection, with a line for each row that is not turned down and, in a delta, committed after the cursor given; its own cursor is the highest revision of those collections, and its manifest has the hash of each file and the device's signature. |
| BundleContents.ExportFailsIff | apps/local-runtime/src/kantaq_runtime/export.py:105-116 | An export fails exactly when it would take a row whose event has no canonical form. |
| BundleRuntime.Runtime.ImportBundle | apps/local-runtime/src/kantaq_runtime/import_bundle.py:142-191 | The loops insert what the specification says, or raise the first error it names; they succeed exactly when the archive can be read and brings only events that are vouched for and new, and then append these. |
| Refold.FoldFromDeletionAt | packages/core/src/kantaq_core/tracker/events.py:71-105 | An entity is what the writes after its last deletion leave, from the first on that has seen the deletion. |
| Revival.FoldIsRow | packages/core/src/kantaq_core/tracker/events.py:71-105 | An entity has a row if and only if a write after its last deletion has a base at or past the revision of the committed deletion that stands, or a flag that holds, or none stands; the row is the merge of the payloads from the first such write on, without the flag. |
| Revival.CommittedDeletionSticks | packages/core/src/kantaq_core/tracker/events.py:84-104 | When the last deletion is committed at t, that is a write with a base of at least t or a flag that holds. |
| Revival.SnapshotIsPlain | packages/sync_engine/src/kantaq_sync_engine/snapshot.py:22-38 | A snapshot's fold, which is given no revisions, takes every write after the last deletion. |
| Refold.SameFoldIff | packages/core/src/kantaq_core/tracker/events.py:71-105 | Under new revisions an entity folds to the same row exactly when the writes that the last deletion's new revision lets in leave what those let in by the old one leave. |
| Refold.ImportKeepsRowIff | apps/local-runtime/src/kantaq_runtime/import_bundle.py:192-203 | An import rebuilds an entity's row as it was if and only if that holds for the revision foreseen from the exported store alone. |
| Refold.ImportLosesRestoredEntity | packages/core/src/kantaq_core/tracker/events.py:84-104 | A store is exported, signed and accepted in which an entity was deleted and restored while both were pending: it has a row before and none after. |
| ForeignKeys.PutAllInOrderIff | packages/db/src/kantaq_db/session.py:38-42 | Writing rows one by one under foreign keys that are checked at once succeeds exactly when every target is there or comes no later. |
| Rebuild.ReferencesAre | packages/db/src/kantaq_db/models.py:70-455 | A row refers to the entities whose ids its columns of that kind hold. |
| Rebuild.ImportSucceedsIff | apps/local-runtime/src/kantaq_runtime/import_bundle.py:142-203 | A fresh runtime imports an exported bundle exactly when its events are inserted and the tables keep their foreign keys after each entity folded; it then has every entity's row. |
| Rebuild.ImportInOrderIff | apps/local-runtime/src/kantaq_runtime/import_bundle.py:193-203 | Unless the workspace was deleted, that is when every row refers to entities folded no later than its own. |
| Rebuild.DomainTables.RefoldEntity | packages/sync_engine/src/kantaq_sync_engine/apply.py:262-290 | Writes or deletes one entity's row as its events and their revisions call for (Revival.FoldIsRow), leaves all other rows, and refuses what breaks a foreign key. |
| Rebuild.DomainTables.RefoldAll | apps/local-runtime/src/kantaq_runtime/import_bundle.py:198-203 | The loop leaves each entity with its row and the foreign keys intact, or stops at the first that cannot be written. |
| Rebuild.ChildBeforeParentIsRefused | apps/local-runtime/src/kantaq_runtime/import_bundle.py:193-203 | A bundle whose events are all accepted, and that is refused when its tickets are folded in the order they were made. |
| Convergence.RunsKeepInv | packages/sync_engine/src/kantaq_sync_engine/engine.py:217-289 | When no actor writes on two replicas, in every run of local writes numbered from the local log, flushes with acknowledgements kept or lost, rejections and pulls, a replica holds as committed only rows of the backend's log, and all that it has pulled. |
| Convergence.SettledIsLog | packages/sync_engine/src/kantaq_sync_engine/engine.py:235-274 | A replica that has pulled everything and has nothing pending has the backend's rows of each collection, in the same order. |
| Convergence.SettledReplicasConverge | packages/sync_engine/src/kantaq_sync_engine/apply.py:3-11 | Two such replicas, after any run, fold every entity to the same row, that of the backend's log. |
| Convergence.NumberIsFree | packages/sync_engine/src/kantaq_sync_engine/log.py:95-103 | The number that a replica gives next, for which it looks at its own log alone, is then taken nowhere. |
| Convergence.NumbersCount | packages/sync_engine/src/kantaq_sync_engine/log.py:95-103 | An actor's first number in a log is 1, and the next is one more than the largest. |
| Convergence.FlushDoes | packages/sync_engine/src/kantaq_sync_engine/engine.py:217-234 | A flush adds a pending event to the backend's log unless its key is there; when it is acknowledged, that row alone has the revision of its key. |
| Convergence.RejectDoes | packages/sync_engine/src/kantaq_sync_engine/engine.py:730-751 | Only a row that waits is rejected; it keeps its event, is folded no more, and nothing else changes. |
| Convergence.PullDoes | packages/sync_engine/src/kantaq_sync_engine/engine.py:235-274 | A pull brings the rows between two positions of the backend's log, and takes away only rows whose key is among them. |
| Convergence.EveryWorldCanSettle | packages/sync_engine/src/kantaq_sync_engine/engine.py:217-289 | From every state of every such run another run leads to one in which all replicas have settled. |
| Convergence.SharedActorDiverges | packages/sync_engine/src/kantaq_sync_engine/log.py:95-103 | A run in which one actor writes on two replicas, both are settled and show different rows. |
| Delta.CommittedRowsIncrease | packages/sync_engine/src/kantaq_sync_engine/log.py:225-264 | A collection's committed rows, as deltas see them, are all of them in revision order. |
| Delta.DeltasJoinIff | apps/local-runtime/src/kantaq_runtime/export.py:108-116 | A delta continues the one before it with no gap and no repetition exactly when everything committed in between has a revision above the cursor. |
| Delta.BelowCursorIsMissed | apps/local-runtime/src/kantaq_runtime/export.py:108-116 | A row committed later at a revision that the cursor has passed is in neither delta. |
| Delta.LatePullIsMissed | apps/local-runtime/src/kantaq_runtime/export.py:108-116 | Two stores in which that happens: ours at 10 is exported before theirs at 8 has been pulled. |
| Delta.ChainIsCommittedLog | apps/local-runtime/src/kantaq_runtime/export.py:215-222 | Such deltas put end to end are the committed log of each collection in commit order, with no pending row. |
| LinearImport.ImportIsFaithful | apps/local-runtime/src/kantaq_runtime/linear_import.py:142-241 | The events emitted rebuild the rows written, no moment of the log misses a parent or a ticket, and each row created is audited. |
| LinearImport.ImportTells | apps/local-runtime/src/kantaq_runtime/linear_import.py:142-241 | Every ticket listed is there; every comment of a listed ticket has a row under its id, or its ticket with its time stamp or a count, with its body; and the counts returned are the tickets, epics and comments created and skipped, and the events emitted. |
| LinearPull.BatchIsTakenIff | packages/sync_engine/src/kantaq_sync_engine/engine.py:245-269 | A pull takes a batch in exactly when each row's target was there or is touched no later in it, and then leaves what replaying it would. |
| LinearPull.PulledAtOnceIff | packages/sync_engine/src/kantaq_sync_engine/engine.py:245-269 | All that an import emits can be pulled in one batch if and only if no new ticket is listed before its new parent. |
| LinearPull.ChildListedFirstIsNotTaken | packages/sync_engine/src/kantaq_sync_engine/engine.py:268-269 | Such a list is imported and its log is never broken, and the batch cannot be taken in. |
| LinearSession.Session.CreatePass | apps/local-runtime/src/kantaq_runtime/linear_import.py:147-186 | The first loop creates the tickets that are not there, without parents. |
| LinearSession.Session.LinkPass | apps/local-runtime/src/kantaq_runtime/linear_import.py:188-206 | The second loop links the tickets created to parents met in this import. |
| LinearSession.Session.CommentPass | apps/local-runtime/src/kantaq_runtime/linear_import.py:208-241 | The third loop adds each comment of a ticket met once under its key. |
| LinearSession.Session.ImportLinear | apps/local-runtime/src/kantaq_runtime/linear_import.py:122-242 | The whole import leaves the specified tables, events and audit rows and returns their counts, or raises when there are no tickets. |
| LinearRerun.RerunIsNoOpIff | apps/local-runtime/src/kantaq_runtime/linear_import.py:208-217 | A second run changes nothing exactly when each comment without id and time stamp is there under the key that ends in 0. |
| LinearRerun.ImportIsIdempotent | apps/local-runtime/src/kantaq_runtime/linear_import.py:147-217 | With an id or a time stamp on every comment, importing twice is importing once. |
| LinearRerun.RerunDuplicatesComment | apps/local-runtime/src/kantaq_runtime/linear_import.py:213 | Two bare comments on two tickets become two rows, and a third in a second run. |
| LinearPrefix.PrefixThenWholeIff | apps/local-runtime/src/kantaq_runtime/linear_import.py:142-241 | For distinct tickets and comments, importing a part and then the whole gives the tables of importing the whole exactly when the part is closed under parents. |
| LinearPrefix.TicketsOneByOne | apps/local-runtime/src/kantaq_runtime/linear_import.py:147-206 | Rows that were there stay; a new ticket has its columns and the parent it came with, if that was met. |
| Encodings.HexReadsBack | src/kantaq/enroll.py:228-238 | Lower-case hex reads back as the bytes it was written from. |
| Encodings.HexIsLower | src/kantaq/enroll.py:228-238 | It is two digits for each byte, without an upper-case letter. |
| Encodings.HexHasOtherSpellings | src/kantaq/enroll.py:228-238 | Reading alone takes upper-case digits and white space between bytes, which the re-encode check refuses. |
| Encodings.Base64ReadsBack | src/kantaq/enroll.py:279-290 | Base64 of section 4 of RFC 4648 reads back as the bytes it was written from. |
| Encodings.Base64HasTwoSpellings | src/kantaq/enroll.py:286-290 | Reading alone takes two spellings for one byte, which the re-encode check refuses. |
| Enroll.HeaderIsCanonical | src/kantaq/enroll.py:241-291 | A header is accepted as an envelope if and only if it is the one spelling of it and the envelope is within the limits. |
| Enroll.HeaderMeans | src/kantaq/enroll.py:241-291 | Written out: the seven members, the two names, 1 to 3 passes over 8192 to 268435456 bytes in kibibytes, a salt of 16 and a nonce of 24 bytes in lower-case hex, and the ciphertext in base64. |
| Enroll.HeadersDoNotCoincide | src/kantaq/enroll.py:241-291 | No two accepted headers mean the same envelope. |
| Enroll.PayloadIsCanonical | src/kantaq/enroll.py:294-329 | A body is accepted as a payload if and only if it is the one spelling of it and the payload meets the rules. |
| Enroll.PayloadMeans | src/kantaq/enroll.py:294-329 | Written out: mode postgres, a URL that begins with http:// or https://, five texts that are not empty, and an expiry after the issue. |
| Enroll.SealThenUnsealIff | src/kantaq/enroll.py:205-225 | What is sealed opens to the same payload exactly when the payload meets the rules and the sealed bytes are within the cap. |
| Enroll.EmptyTokenDoesNotOpen | src/kantaq/enroll.py:205-225 | A payload with an empty token is sealed without complaint, and does not open. |
| Enroll.UnsealedWasSealed | src/kantaq/enroll.py:332-347 | What opens is the one spelling of an encryption under the passcode of text that means the payload. |
| Enroll.UnsealIff | src/kantaq/enroll.py:332-347 | Bytes open to a payload if and only if they are at most 65536 and the one spelling of an encryption under the passcode of text that means it; they are reported as not decrypting exactly when the envelope is right and nothing encrypted under the passcode is in it. |
| Enroll.SealedCosts | src/kantaq/enroll.py:186-225 | Sealing spends three passes over 256 mebibytes, or in the fast profile one over 8 kibibytes. |
| EnvFile.MergeKeepsOthers | src/kantaq/enroll.py:559-568 | Read again, the new file has the lines of other keys in order and then those of the settings. |
| EnvFile.KeptAre | src/kantaq/enroll.py:559-563 | A line is kept exactly when what stands before its first equals sign, without the white space around it, is none of HUB_MODE, HUB_URL and HUB_TOKEN. |
| EnvFile.UniversalHasNoReturn | src/kantaq/enroll.py:543-563 | Reading the file leaves no carriage return, and text that has none as it is. |
| EnvFile.MergeIsIdempotentIff | src/kantaq/enroll.py:542-568 | Merging twice is merging once exactly when each line the settings read back as belongs to one of their keys. |
| EnvFile.BrokenUrlAccumulates | src/kantaq/enroll.py:542-568 | A URL that the payload rules admit, with a line separator in it, leaves a stray line, and each merge adds another. |
| EnvFile.MergeSetsEachOnce | src/kantaq/enroll.py:542-568 | For values without line breaks the file has the lines of other keys and then HUB_MODE=postgres, the URL and the token, each on its line; and the merge is idempotent. |
| EnvFile.Directory.FreeName | src/kantaq/enroll.py:549-557 | In any finite directory the search ends at the first candidate name that is free. |
| EnvFile.Directory.WriteEnv | src/kantaq/enroll.py:535-568 | An existing file is backed up under its name with the stamp, and the least counter from 2 if that is taken, and then merged; nothing else is touched. |

## Left out

- Cryptography itself: SHA-256, Ed25519, Argon2id and XSalsa20-Poly1305 stand as functions with the laws above.
- SQL, the object mapper, HTTP, authentication, roles, notifications, the command line and the web interface: plumbing.
- The one-mebibyte bound on events and grants: the codec that is a parameter refuses what is past it.
- JSON text: the canonical text of a value is written and measured, but parsed only between quotes; the codec of events is a parameter with its inverse laws. Members are taken by code point and not by UTF-16 unit, which does not change how many bytes they take.
- The typed form of a result row, which turns the absent head of a duplicate into 0.
- The privacy columns and the read API of the audit log, which no chain operation looks at.
- Audit ids are numbers and stand for ULIDs in their order; members, grants and devices are not tables here.
- SyncEvents.ConflictsAreDetected: compares values as JSON values, because values outside the canonical profile, on which the comparison raises, are not stored.
- CommitConcurrency.CursorSafety: is about locked inserts; push takes no lock and is modelled sequentially, and a wait on an uncommitted row with the same key is part of the step that inserts.
- Bundle: blobs, tar and gzip bytes, and the files of actors, grants and audit anchors, which are opaque texts with parse functions that may fail; storing blobs under their hash would add only easy members.
- Refold.ImportKeepsRowIff: is about the fold; the conversion of columns and the separate folds of trust roots and conflict records are not modelled.
- Rebuild.ImportSucceedsIff: is about the foreign keys of domain tables; columns that must not be empty, unique pairs of columns, and the rows of devices, grants and conflict records are not modelled. The order of entities is a parameter, because the query leaves it open.
- Convergence.SettledReplicasConverge: is about the fold of each log; which rows a table shows between two folds (a mark does not fold again, so with two local actors it can differ from the fold), pulls of single collections, conflict records and proposals are not modelled.
- Delta.DeltasJoinIff: assumes positive, distinct revisions, which the backend assigns.
- LinearImport: the mapping of single columns (status, priority, labels, dates) is a ready-made map of columns, because each is a lookup; time stamps and the signer are not modelled, and a ticket without an id, which raises, is not a value.
- LinearPull.PulledAtOnceIff: projects and members are taken to be there, and with repeated ids nothing is claimed.
- LinearPrefix.PrefixThenWholeIff: requires distinct ids, because with repeated ones the first row's content and the last row's parent win, which a part need not share.
- Enroll: provisioning, expiry, the passcode generator and the check of the hub's identity.
- EnvFile.Directory.WriteEnv: file modes and the refusal of symbolic links; a directory maps names to texts.
- Retention: deletion of events below the acknowledged watermark, and the retention command that calls anchor and summary.
