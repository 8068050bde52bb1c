# Verified model of the EKOA core

A Dafny model of the stateful parts of EKOA, a knowledge assistant with an API service, an AI service, a background
worker and a web client, with proofs of what those parts promise. Check everything with `dafny verify dfyconfig.toml`.

| modules | what they model |
|---|---|
| `SlidingWindow`, `RedisWindow`, `LimiterAgreement` | the two sliding-window rate limiters, and exactly when they agree |
| `RedisProtocol`, `RedisAdmissions`, `RedisOverlap` | calls of the Redis limiter interleaved at every awaited command, with the key's time-to-live, sharp bounds and their exact condition |
| `RepoTree`, `Vectors`, `Sync`, `SyncSafety`, `SyncRuns`, `SyncAborts` | the GitHub connector's sync: two tables in a transaction, and a vector store outside it |
| `Retrieval`, `RetrievalSafety` | tenant-filtered search behind a five-minute cache |
| `Workflow`, `WorkflowRuns`, `WorkflowScans` | a compliance run from enqueueing through the human gate to its audit row |
| `SessionRotation`, `RefreshClient` | refresh-token rotation without a lock, and the browser's single-flight refresh |
| `Sse` | the client's event-stream parser (section 9.2 of the WHATWG HTML Standard) |
| `Organizations` | membership edits, invites and the last-owner guard |
| `Research` | iterative retrieval and citation checking |
| `Base64`, `Cursor`, `Pages`, `Slug` | cursors, page walks and slugs |

Code that updates state is a class with methods proved against functions on values. Concurrent behaviour is a state
machine over those same functions, one step for each stretch that runs without interruption. A theorem about every
run ranges over all sequences of enabled steps.

Some properties hold only under a condition, here and there against the code's own comments. Each of these has witnesses
for its failure and a theorem that says exactly when it holds:

- `LimiterAgreement.Agreement`, with `BoundaryDisagreement`;
- `RedisOverlap.AdmittedBoundExactly`, with `SlowCallsExceed`, `ThreeInAMinute` and `CollidingMembersUnbounded`;
- `SyncRuns.FetchedAgreesExactly`, `SyncAborts.AbortedAgreesExactly` and `SyncAborts.HistoryAgreesExactly`, with
  `SyncRuns.AbortThenRevert`;
- `SessionRotation.ForkFreeExactly`, with `OverlapForks`;
- `RetrievalSafety.KeysExactly` and `ExplainedExactly`, with `SharedKeyCrosses`, `OrganizationsCross` and `ColonsCollide`;
- `Slug.IdempotentExactly`, with `DottedINotIdempotent`.

Assumptions:

- Rate limits: limit at least one, limit and window fixed per key, a clock that does not go back; for Redis, non-negative
  times and one clock for all processes and the server. Times are reals, so rounding of floating-point seconds is not modelled.
- Hashes (SHA-256 of contents, questions and tokens; uuid5 of point ids) are injective, random ids and tokens are new.
- A sync does not overlap another sync of the same connector, and a workspace belongs to one organization for good.
- A run is executed once. A decision on it is atomic from loading the run to its first commit.
- One tab, reliable answers, valid tokens and no logout for `SingleFlightSafe`; nothing of the kind for `ForkFreeExactly`.
- Repositories are of the form owner/name.
- Embedding, cutting and ranking are functions of their inputs; where nearness is claimed, ranking is by similarity to the vector.
- Lower case is taken character by character, as the code does: it is not empty, holds no dash, and is its own lower case.

## Model

| member | source | states |
|---|---|---|
| `SlidingWindow.RateLimiter.Check` | packages/shared-config/ekoa_config/rate_limit.py:56-67 | the deque loop, its answer and the new buckets are those of Attempt on this key's bucket; no other key changes |
| `SlidingWindow.WindowBound` | packages/shared-config/ekoa_config/rate_limit.py:56-67 | over any non-decreasing clock, no closed window of the configured length holds more than limit admissions |
| `SlidingWindow.RefusedExactly` | packages/shared-config/ekoa_config/rate_limit.py:63-65 | an attempt is refused if and only if exactly limit admissions lie in the closed window ending at it |
| `SlidingWindow.KeptNeverOverLimit` | packages/shared-config/ekoa_config/rate_limit.py:61-66 | what eviction leaves is the closed window ending now, never more than limit entries |
| `SlidingWindow.RetryAfterExact` | packages/shared-config/ekoa_config/rate_limit.py:64-65 | waiting a whole number of seconds after a refusal admits if and only if it is at least the answered Retry-After |
| `SlidingWindow.KeysIndependent` | packages/shared-config/ekoa_config/rate_limit.py:53-60 | after any mix of calls a key's bucket is the replay of its own attempts alone |
| `RedisWindow.RedisRateLimiter.Member` | packages/shared-config/ekoa_config/rate_limit.py:96-100 | each attempt draws the next number, so members of one process never repeat |
| `RedisWindow.RedisRateLimiter.AcheckAlone` | packages/shared-config/ekoa_config/rate_limit.py:102-118 | the four commands of a call that meets no other, with the server's expiry, answer and leave what Acheck says |
| `RedisWindow.RedisRateLimiter.FirstScore` | packages/shared-config/ekoa_config/rate_limit.py:111-112 | the lowest score of the set, or none |
| `RedisWindow.CountedIsRecent` | packages/shared-config/ekoa_config/rate_limit.py:107-117 | what is counted is exactly the admissions after now - window, and is the same whether or not the key had expired, so the time-to-live never changes a decision |
| `RedisWindow.RedisReplayInvariant` | packages/shared-config/ekoa_config/rate_limit.py:96-118 | in every run of one process, admissions still in the window are stored, members are distinct, and the key outlives them |
| `LimiterAgreement.Agreement` | packages/shared-config/ekoa_config/rate_limit.py:56-67 | the two backends give equal answers on a whole run, Retry-After included, if and only if the in-process one never refuses an attempt exactly window_seconds after an admitted one |
| `LimiterAgreement.BoundaryDisagreement` | packages/shared-config/ekoa_config/rate_limit.py:83-89 | the documented equality fails: limit 1, window 60, attempts at 0 and 60 |
| `LimiterAgreement.StoredWithinLimit` | packages/shared-config/ekoa_config/rate_limit.py:107-117 | with calls that do not overlap the set never outgrows the limit |
| `LimiterAgreement.RedisRetryAfter` | packages/shared-config/ekoa_config/rate_limit.py:110-114 | waiting the answered time always suffices, and one second less also does if and only if the remaining time is a whole number of seconds |
| `RedisProtocol.StoredBound` | packages/shared-config/ekoa_config/rate_limit.py:102-118 | in every interleaving with at most k calls in flight, whatever expires or is lost, stored entries plus calls past the ZCARD test are at most limit + k - 1 |
| `RedisAdmissions.StepKeepsExpiry` | packages/shared-config/ekoa_config/rate_limit.py:107-117 | in every state either the key's expiry finds only entries long out of the window and calls that began early enough, or a call in flight will prolong it in time |
| `RedisAdmissions.AdmittedBound` | packages/shared-config/ekoa_config/rate_limit.py:102-118 | if every call reaches its EXPIRE within int(window) + 1 - window seconds of reading the clock, and members are distinct or the limit is one, any half-open window sees at most limit + 2(k - 1) admissions, so at most limit without overlap |
| `RedisAdmissions.FreshAdmissionsCounted` | packages/shared-config/ekoa_config/rate_limit.py:116 | with distinct members every admission stays visible as its own entry |
| `RedisOverlap.AdmittedBoundExactly` | packages/shared-config/ekoa_config/rate_limit.py:83-118 | that bound holds for all runs if and only if calls are that quick and members are distinct or the limit is one |
| `RedisOverlap.StoredBoundReached` | packages/shared-config/ekoa_config/rate_limit.py:102-118 | for every limit and k some run stores limit + k - 1 entries |
| `RedisOverlap.AdmittedBoundReached` | packages/shared-config/ekoa_config/rate_limit.py:102-118 | for every limit and k, however quick calls are, some run admits limit + 2(k - 1) in one window |
| `RedisOverlap.SlowCallsExceed` | packages/shared-config/ekoa_config/rate_limit.py:104-117 | if calls may last longer, k of them can stall across the key's expiry and bring a window to limit + 2k - 1, even with k = 1 |
| `RedisOverlap.ThreeInAMinute` | packages/shared-config/ekoa_config/rate_limit.py:104-117 | two a minute become three: one call reads the clock at 60.5 and reaches its EXPIRE at 62, when the key is gone |
| `RedisOverlap.CollidingMembersUnbounded` | packages/shared-config/ekoa_config/rate_limit.py:83-100 | members are unique only inside one process: with coinciding clocks and counters, calls that never overlap are admitted without bound once the limit exceeds one |
| `RepoTree.RepoTreeFiles` | apps/api/services/connectors/github.py:109-121 | the listed paths are strictly ordered, and are exactly the wanted blobs |
| `RepoTree.WantedExactly` | apps/api/services/connectors/github.py:112-120 | wanted are README.md, README and what is under docs/ and ends in .md, in letters of either case |
| `RepoTree.PrecedesExactly` | apps/api/services/connectors/github.py:121 | the order is that of the first differing character, a proper beginning coming first |
| `SyncRuns.ListedIsDistinct` | apps/api/services/connectors/github.py:121 | a listing has no path twice |
| `Vectors.VectorStore.IndexChunks` | apps/worker/embeddings.py:63-81 | the loop builds one point per zipped chunk and vector; the store gains them all, or a first part when the write is cut short |
| `Vectors.UpsertedLookup` | apps/worker/embeddings.py:66-80 | an upsert puts each chunk and its vector under its own id and changes no other document's points and no later chunk of this one |
| `Sync.SyncSession.Lookup` | apps/api/services/connectors/github.py:189-197 | the first live document of this workspace and file, if any |
| `Sync.SyncSession.Process` | apps/api/services/connectors/github.py:224-288 | a processed file gets its document, next version and points; a failed write leaves the points written so far |
| `Sync.SyncSession.SyncFile` | apps/api/services/connectors/github.py:174-288 | one turn of the loop: refused, skipped, processed or aborting, with its counters |
| `Sync.SyncSession.Sync` | apps/api/services/connectors/github.py:173-298 | the loop commits everything or rolls the two tables back while the vector store keeps what was upserted |
| `SyncRuns.HistoryGood` | apps/api/services/connectors/github.py:173-290 | in any history of committed and aborted syncs and deletions, versions are numbered exactly 1..n and no file has two live documents; while all syncs commit, every live document's chunks are stored with its tenant ids |
| `SyncRuns.FetchedHasOneDocument` | apps/api/services/connectors/github.py:189-290 | after a committed sync each fetched path has exactly one live document, whose highest version carries the fetched checksum |
| `SyncRuns.RepeatChangesNothing` | apps/api/services/connectors/github.py:186-210 | a second sync of a remote that answers alike changes no row and no point, even if embedding or indexing is down |
| `SyncRuns.Counters` | apps/api/services/connectors/github.py:181-285 | processed + skipped + failed is the number of paths, and created is the number of new rows |
| `SyncRuns.ReportIsShares` | apps/api/services/connectors/github.py:181-285 | each path is counted as refused, unchanged, changed or new by how it stood before the sync, with its chunks |
| `SyncRuns.CommittedAllAgree` | apps/api/services/connectors/github.py:252-290 | a committed sync keeps every live document in agreement with the vector store |
| `SyncRuns.FetchedAgreesExactly` | apps/api/services/connectors/github.py:208-284 | after any history, a committed sync leaves a fetched path in agreement if and only if its checksum had changed or it agreed before |
| `SyncRuns.AbortThenRevert` | apps/api/services/connectors/github.py:208-218 | a write cut short and then undone at the remote leaves a skipped path whose points are not its chunks |
| `SyncAborts.AbortedAgreesExactly` | apps/api/services/connectors/github.py:217-270 | after an aborted sync a file whose turn was reached agrees if and only if every chunk its writes missed was right before and every chunk they reached was written as it is kept |
| `SyncAborts.HistoryAsReckoned` | apps/api/services/connectors/github.py:173-290 | over any history of committed and aborted syncs and deletions, a live document's stale chunks are exactly those reckoned from rows and fetched contents alone |
| `SyncAborts.HistoryAgreesExactly` | apps/api/services/connectors/github.py:173-290 | a history ends with all live documents in agreement with the vector store if and only if none is reckoned to have a stale chunk |
| `SyncRuns.IdentitiesExactly` | apps/api/services/connectors/github.py:162-175 | for repositories of the form owner/name, identities are equal if and only if repository and path are |
| `SyncAborts.SyncKeepsOthers` | apps/api/services/connectors/github.py:173-290 | a sync of one repository, committed or aborted, leaves every document of another repository or workspace, and every deleted one, with its row, versions and points |
| `SyncRuns.SyncedKeeps` | apps/api/services/connectors/github.py:189-290 | a committed sync keeps row, versions and points of every document that stands for none of the files listed |
| `SyncSafety.ProcessedAgrees` | apps/api/services/connectors/github.py:252-284 | processing a file restores agreement whatever the vector store held |
| `SyncSafety.HighestOfDense` | apps/api/services/connectors/github.py:200-206 | with dense numbers the highest version is the last one |
| `Retrieval.Retriever.EmbedQueryCached` | apps/ai/retriever.py:47-65 | under any read and write failures the vector is the model's own |
| `Retrieval.Retriever.RetrieveChunks` | apps/ai/retriever.py:104-149 | a call alone answers the live cache entry, or the nearest chunks of the question's tenant to the vector of its own query, and caches only these |
| `RetrievalSafety.AnswersAreRecentSearches` | apps/ai/retriever.py:104-149 | however calls overlap and Redis fails, an answer is the tenant-filtered search at some moment at most 300 seconds plus the search-to-answer gap earlier, and holds only the caller's chunks |
| `RetrievalSafety.SearchStaysInTenant` | apps/ai/retriever.py:68-94 | whatever the ranking, every chunk returned carries the caller's organization and workspace, even in a shared collection |
| `Retrieval.SearchIsNearest` | apps/ai/retriever.py:125-142 | with a ranking by similarity, the chunks are those of points of the tenant, each once, by falling similarity to the query's vector; no tenant point is missing below the limit, and none left out is more similar than one listed |
| `Retrieval.FilterPinsTenant` | apps/ai/retriever.py:68-94 | the filter lets through exactly the points that carry the organization and the workspace given |
| `RetrievalSafety.LooksAreNearest` | apps/ai/retriever.py:125-142 | in every run each search finds the nearest chunks in the store of its collection as it then stands |
| `RetrievalSafety.AnswersAreNearest` | apps/ai/retriever.py:104-149 | however calls overlap and Redis fails, an answer lists the nearest chunks of the caller's tenant, to the question's own query, as of at most 300 seconds plus the gap earlier |
| `RetrievalSafety.RememberedExactly` | apps/ai/retriever.py:144-145 | what is cached is found under its own key for exactly 300 seconds, and disturbs no other key |
| `RetrievalSafety.KeysExactly` | apps/ai/retriever.py:97-101 | for colon-free collections two questions share a key if and only if they differ at most in organization |
| `RetrievalSafety.ColonsCollide` | apps/ai/retriever.py:100 | with colons in names, keys of different questions collide |
| `RetrievalSafety.SharedKeyCrosses` | apps/ai/retriever.py:97-121 | whenever two questions share a key but not their searches, some run answers one with the other's chunks |
| `RetrievalSafety.ExplainedExactly` | apps/ai/retriever.py:97-149 | for any set of questions, all answers in all runs are recent searches of their own question if and only if those that share a key always have the same answer |
| `RetrievalSafety.OrganizationsCross` | apps/ai/retriever.py:97-101 | two organizations asking the same outside any workspace share a key and not their answers |
| `RetrievalSafety.CollectionsSharedExactly` | packages/shared-utils/ekoa_utils/naming.py:14 | two workspaces share a collection if and only if their ids begin with the same eight characters |
| `RetrievalSafety.CollectionNamesColonFree` | packages/shared-utils/ekoa_utils/naming.py:14 | collection names made from workspace ids hold no colon |
| `Workflow.RunSession.LogAction` | apps/api/services/audit_service.py:24-36 | the row and everything pending are committed together |
| `Workflow.RunSession.ScanDocuments` | apps/worker/workflow_executor.py:177-201 | scans as ScanOf, which ScanIs and PausesExactly describe |
| `WorkflowScans.ScanIs` | apps/worker/workflow_executor.py:177-201 | the number of readable documents, their characters, and each of the four counts as its sum over them |
| `WorkflowScans.PausesExactly` | apps/worker/workflow_executor.py:199-225 | an execution that does not raise before its gate pauses if and only if something was found in some readable document |
| `WorkflowScans.RecordsAreOfDocuments` | apps/worker/workflow_executor.py:229-244 | in every reachable state of a run on given documents, its steps and its audit row hold their sums and count for this workflow, run and workspace; an automatic row means they are all clean, a human one that they are not |
| `WorkflowScans.ColumnsFit` | apps/api/routes/workflows.py:216-240 | in every reachable state start, error, decider and decision time are set exactly as the status says, and the workflow shows its run's status unless another run was at work |
| `WorkflowScans.DecisionAsTaken` | apps/api/routes/workflows.py:400-461 | a decision records who, when and why in the columns and in the gate step |
| `WorkflowScans.TimesAsTaken` | apps/worker/workflow_executor.py:362-403 | starts, ends and errors are recorded as they happened |
| `Workflow.RunSession.GateAndDispatch` | apps/worker/workflow_executor.py:203-247 | pauses on findings; otherwise commits the audit row itself before returning s4 |
| `Workflow.RunSession.Conclude` | apps/worker/workflow_executor.py:319-404 | failed, awaiting approval or completed, with the fields each sets, in one commit; a pause is committed a second time when its notification is |
| `Workflow.RunSession.RunCompliance` | apps/worker/workflow_executor.py:347-404 | the exact sequence of states one execution commits, with raising executors and the commit of a pause's notification |
| `Workflow.RunSession.DecideStep` | apps/api/routes/workflows.py:301-329 | rewrites the step under decision and no other |
| `Workflow.RunSession.ApproveRun` | apps/api/routes/workflows.py:387-438 | a run not awaiting a decision is refused untouched; otherwise the decision is committed with the audit row, then the completion, then the note |
| `Workflow.RunSession.RejectRun` | apps/api/routes/workflows.py:441-480 | a run not awaiting a decision is refused untouched; otherwise one commit rejects it, then the note |
| `WorkflowRuns.CommittedStatesSafe` | apps/worker/workflow_executor.py:362-404 | in every reachable committed state completed_at is set exactly in COMPLETED, FAILED and REJECTED; a pending or rejected compliance run has no s4 and no compliance row; a completed one has s1..s4 and exactly one row, which s4 names; a row is only ever earned by a named human or clean documents; the gate step shows the run's decision |
| `WorkflowRuns.PauseThenApprove` | apps/api/routes/workflows.py:332-377 | pausing and approving ends with the steps, status and audit row of a straight run, the row differing in id and verdict, s4 in its id and duration |
| `WorkflowRuns.DispatchIsWorkers` | apps/api/routes/workflows.py:341-361 | the row written after an approval is the worker's row for the same documents but for its verdict |
| `WorkflowRuns.DecidedPaused` | apps/api/routes/workflows.py:306-321 | deciding a paused run rewrites s3 only |
| `WorkflowRuns.ExecutionIsRun` | apps/worker/workflow_executor.py:362-404 | what one execution commits is what the state machine's worker steps pass through |
| `WorkflowRuns.StepKeepsFits` | apps/api/routes/workflows.py:186-464 | every worker, approval, rejection, crash and enqueue step keeps the invariant of its template |
| `SessionRotation.SessionStore.CreateUserSession` | apps/api/services/auth_service.py:111-130 | a live row for the new token |
| `SessionRotation.SessionStore.RevokeSession` | apps/api/services/auth_service.py:133-140 | the row is revoked if there is one |
| `SessionRotation.SessionStore.RotateRefreshToken` | apps/api/services/auth_service.py:143-193 | a missing, revoked or expired row changes nothing and issues nothing; any other is revoked even when its payload is unusable, and replaced when it names a user |
| `SessionRotation.HeirsWereReadLive` | apps/api/services/auth_service.py:150-187 | in every interleaved run each issued token comes of a read at which its parent's row was neither revoked nor expired |
| `SessionRotation.ForkFreeExactly` | apps/api/services/auth_service.py:150-187 | with read and commit apart, no token gets two heirs if and only if no read was accepted while another rotation of the same token was pending |
| `SessionRotation.UsesBounded` | apps/api/services/auth_service.py:150-187 | without such overlap no token is ever rotated twice |
| `SessionRotation.OverlapForks` | apps/api/services/auth_service.py:150-187 | two tabs refreshing at once end with two live sessions of one login |
| `RefreshClient.ApiClient.RefreshAccessToken` | apps/web/src/lib/api.ts:282-306 | a refresh is sent only when none is in flight |
| `RefreshClient.ApiClient.OnResponse` | apps/web/src/lib/api.ts:332-349 | a 401 on a refreshable, not yet retried call waits for the shared refresh; any other response ends the call |
| `RefreshClient.ApiClient.OnRefreshSettled` | apps/web/src/lib/api.ts:301-347 | the promise is cleared and every waiting call retries once or gives up |
| `RefreshClient.UnauthorizedWaits` | apps/web/src/lib/api.ts:332-338 | a first 401 on a call that may refresh waits on a refresh with the current cookie; any other response ends the call |
| `RefreshClient.WaitingResumes` | apps/web/src/lib/api.ts:338-341 | a waiting call is sent again exactly if the refresh succeeds, and its next response ends it |
| `RefreshClient.RefreshedOnce` | apps/web/src/lib/api.ts:332-341 | in every run such a call waits until the refresh settles and is then sent a second time |
| `RefreshClient.SingleFlightSafe` | apps/web/src/lib/api.ts:276-350 | in every reachable state of one tab and the server the login has exactly one live session, held by the cookie whenever no refresh is in flight; no refresh presents a revoked token; no call is sent more than twice |
| `Sse.ConsumeSSE` | apps/web/src/lib/sse.ts:10-46 | however the text is cut into reads, the handler sees the events of one pass over the complete lines of the whole text |
| `Sse.SplitOfConcat` | apps/web/src/lib/sse.ts:18-20 | splitting buffer plus chunk gives the complete lines of the whole and the same rest |
| `Sse.TrimIs` | apps/web/src/lib/sse.ts:23 | trimming removes exactly the surrounding white space |
| `Sse.EventLineReads` | apps/web/src/lib/sse.ts:29-32 | an event field names the next events, however it is spaced |
| `Sse.DataLineReads` | apps/web/src/lib/sse.ts:34-44 | a data field calls the handler under the current name unless it is empty, [DONE] or no JSON |
| `Sse.BlankLineReads` | apps/web/src/lib/sse.ts:23-27 | a blank line goes back to the name message |
| `Sse.RoundTrip` | apps/web/src/lib/sse.ts:22-44 | printing frames and comments and parsing the text gives one call per non-empty data line, in order and under its event name; empty data gives none |
| `Organizations.Directory.CreateOrganization` | apps/api/services/org_service.py:19-37 | the organization and its owner membership appear together |
| `Organizations.Directory.CountOwners` | apps/api/services/invite_service.py:162-167 | the number of owner rows |
| `Organizations.Directory.UpdateMemberRole` | apps/api/routes/organizations.py:206-221 | not found, last owner, or the new role written |
| `Organizations.Directory.RemoveMember` | apps/api/routes/organizations.py:252-266 | not found, last owner, or the row deleted |
| `Organizations.Directory.AcceptInvite` | apps/api/services/invite_service.py:108-159 | accepted exactly if the invite is pending, unexpired and for this email; then it is spent and a missing membership added with its role |
| `Organizations.RefusalsExactly` | apps/api/services/invite_service.py:119-136 | why an attempt is refused, in the order of the checks |
| `Organizations.SpentInvites` | apps/api/services/invite_service.py:97-157 | a revoked or accepted invite is refused from then on |
| `Organizations.WrittenExactly` | apps/api/routes/organizations.py:219-266 | an edit changes its row and nothing else |
| `Organizations.MembersAreInvited` | apps/api/services/invite_service.py:108-159 | with read and commit as separate steps, in every run each membership is a founding one, or its user was invited under their own email by an invite pending and unexpired when read, with the invited role until an edit |
| `Organizations.Directory.RevokeInvite` | apps/api/services/invite_service.py:97-101 | the invite is revoked |
| `Organizations.AlwaysOneOwner` | apps/api/routes/organizations.py:206-266 | with check and write as separate steps of concurrent handlers, each organization always has exactly one owner membership, its owner_id's |
| `Organizations.GuardRefusesOwners` | apps/api/routes/organizations.py:213-217 | in every reachable state the guard refuses an edit if and only if it targets the owner |
| `Research.ResearchNode` | apps/ai/graph.py:624-657 | between one and three passes, a further one exactly when the model asks after a non-empty pass; the result is the first-occurrence deduplication of all that was found |
| `Research.FirstsPositions` | apps/ai/graph.py:629-634 | deduplication keeps exactly the first occurrence of every (document_id, chunk_index), in order |
| `Research.AllFoundIs` | apps/ai/graph.py:638-657 | what was found is the passes' chunks in order, a failed retrieval giving none |
| `Research.ValidateCitations` | apps/ai/graph.py:919-929 | splits the citations, in order, by whether a retrieved chunk has the id |
| `Research.Surface` | apps/ai/graph.py:1007-1031 | verified citations and the flag, or all retrieved ids when nothing is cited |
| `Research.SourcesAreRetrieved` | apps/ai/graph.py:897-1031 | for any answer the sources never repeat and are exactly the cited retrieved ids, or all retrieved ids; the flag is set if and only if a cited id was not retrieved |
| `Research.ChosenPositions` | apps/ai/graph.py:926-929 | verified and dropped citations keep their order |
| `Research.DistinctPositions` | apps/ai/graph.py:910 | distinct ids come in the order of their first occurrences |
| `Research.UuidsExactly` | apps/ai/graph.py:892-894 | ids are exactly the texts of hexadecimal digits in groups of 8, 4, 4, 4 and 12 |
| `Research.WrittenIdIsRead` | apps/ai/graph.py:891-910 | every such text written in a citation line is read back |
| `Research.LinesExactly` | apps/ai/graph.py:891 | a citation line is the marker in letters of either case, white space, and a bracketed list |
| `Research.FirstLineExactly` | apps/ai/graph.py:906 | the first such line is taken, if there is any |
| `Research.ExtractedAreWritten` | apps/ai/graph.py:906-910 | every id taken stands in that line |
| `Research.CitationRoundTrip` | apps/ai/graph.py:891-910 | a citation line written into an answer is read back as its ids, each once |
| `Base64.DecodeEncode` | apps/mcp_server/tools.py:136-146 | decoding undoes encoding for every byte string (section 5 of RFC 4648), with the lenient decoder |
| `Base64.AlphabetIs` | apps/mcp_server/tools.py:137 | the symbols are those of table 2 of RFC 4648 |
| `Base64.QuadIsNumber` | apps/mcp_server/tools.py:137 | four symbols are the number three bytes are |
| `Cursor.ForeignCursor` | apps/mcp_server/tools.py:141-154 | what any ASCII text is read as: a number after the prefix, not below zero, or an invalid cursor |
| `Pages.BoundedExactly` | apps/mcp_server/tools.py:272 | a limit from 1 to 100 is itself, a smaller one 1, a larger one 100 |
| `Pages.PageSays` | apps/mcp_server/tools.py:311-318 | each page states the total, its offset and the bounded limit |
| `Pages.ToolCursorsInverse` | apps/mcp_server/tools.py:136-154 | the tool's cursors start at offset 0 and are read as the offset they were made from |
| `Cursor.CursorRoundTrip` | apps/mcp_server/tools.py:136-154 | decoding a cursor gives back the offset it was made from |
| `Pages.FinishedWalk` | apps/mcp_server/tools.py:265-318 | a finished walk by the tool's cursors took max(1, ceil(total / limit)) calls and saw every document once, in order, as the numbered pages do |
| `Pages.WalkFinishes` | apps/mcp_server/tools.py:272-304 | following the tool's next_cursor over an unchanged listing comes to an end from any point |
| `Pages.WalkAt` | apps/mcp_server/tools.py:272-304 | for any cursors that are read as they were made, the i-th page starts at i times the bounded limit |
| `Pages.ItemsAreNumbered` | apps/api/routes/workflows.py:269-275 | the first n pages of a walk hold what numbered pages 1..n hold |
| `Pages.CeilingExact` | packages/shared-types/ekoa_types/pagination.py:30 | the page count is the ceiling of total over page size |
| `Slug.SlugifyIsTidy` | apps/api/services/auth_service.py:28-32 | for any script, a slug is non-empty with no leading, trailing or doubled dash |
| `Slug.SlugifyKeepsWords` | apps/api/services/auth_service.py:28-32 | a slug has exactly the words of the name, in lower case and in order, or is the default |
| `Slug.WordsAreRuns` | apps/api/services/auth_service.py:30-31 | those words are the maximal runs of letters and digits of the name, all of them, in order and in lower case |
| `Slug.SlugsAreFixedPoints` | apps/api/services/auth_service.py:28-32 | a text slugifies to itself if and only if it is tidy and made of dashes and of letters and digits in lower case |
| `Slug.IdempotentExactly` | apps/api/services/auth_service.py:28-32 | slugifying twice is slugifying once if and only if the lower cases of the name's letters and digits are letters and digits |
| `Slug.AsciiIdempotent` | apps/api/services/auth_service.py:28-32 | so it is for ASCII |
| `Slug.DottedINotIdempotent` | apps/api/services/auth_service.py:28-32 | and is not for a capital I with a dot, whose lower case has a combining dot that is no letter |
| `Slug.CandidatesDiffer` | apps/api/services/auth_service.py:63-65 | the candidates of the loop are pairwise distinct |
| `Slug.FreeSlug` | apps/api/services/auth_service.py:60-65 | the loop ends after at most one more probe than slugs in use, with the first candidate that is free |

## Left out

- The clock read before the lock (rate_limit.py:58): attempts of concurrent threads are taken in the order of their clock readings.
- A limit below one: the deque of the in-process limiter would be indexed while empty; callers configure positive limits.
- RedisAdmissions.AdmittedBound: supposes that Redis itself keeps the key until its time-to-live is over; eviction or a restart
  that loses it would undo the bound. `RedisProtocol.StoredBound` holds with losses at any moment.
- The rate-limit middleware, client keys and response headers: wiring around the limiters.
- The Redis key text `rl:{scope}:{key}`, which can coincide for scopes or keys that contain colons; runs are stated for one Redis key.
- Provider HTTP calls, OAuth, email, Celery retries and duplicate deliveries, metrics, tracing and logs: a fetch, an
  embedding or a Redis command is a step that may fail.
- The other connector adapters, which repeat the GitHub loop or a one-item form of it.
- `_exec_ingest`, which re-indexes a workspace without tenant ids (workflow_executor.py:141-161): the tenant claims hold for what
  syncs write.
- Points with an index at or past a document's chunk count: upserts never remove them and nothing is claimed of them.
- Text decoding, cutting into chunks, embedding and ranking: each content carries its chunks and vectors, and a ranking is any
  function of the tenant's points and the query vector.
- A vector database search that itself fails: it gives no answer, so nothing is claimed.
- Questions without a workspace but with different organizations share cache keys (`RetrievalSafety.SharedKeyCrosses`); the service
  resolves the organization from the workspace, which is the assumption of `AnswersAreRecentSearches`.
- The executors of the other templates: their outcome is any steps with or without an error, and only completed_at is claimed.
- Run logs, the content of notifications, the run-started audit row's content and the display name in a decided step's output.
- The role checks of the handlers and soft-deleted workflows: authorisation in front of what is modelled.
- RefreshClient.SingleFlightSafe: does not cover two tabs, lost responses or logout during a refresh, because the promise is shared
  inside one tab only; `SessionRotation.OverlapForks` shows what two tabs do.
- The access token, the stored tokens cleared after a failed refresh and the redirect to the login page: what makes a response 401
  is left to the server.
- Undecodable tokens in overlapping rotations: every commit of the interleaved model names a user; the sequential method covers them.
- Byte-level UTF-8 streaming of TextDecoder: reads are taken as decoded text. The text after the last newline is dropped, as the code does.
- Data lines of one frame are delivered one by one, as the code does, where the standard joins them.
- Exceptions thrown by the event handler itself, which the code swallows with malformed JSON.
- Case folding of emails: they are carried lower-cased.
- The race of two registrations for one slug between probe and insert.
- Removing the citation line from the answer that is shown.
- The regular expressions of the citation line: matched on ASCII letters and spaces.
- Cursor texts with bytes outside ASCII count as invalid, also where int() would read other scripts' digits; its limit on the number
  of digits is not modelled.
- `math.ceil(total / page_size)` divides in floating point; the model's ceiling is exact, as is the code's below 2^53.
- Listings with equal creation times, whose order the database may choose anew for each page.
- Analytics, pages, middleware, migrations, settings and the React client: presentation and sums.
