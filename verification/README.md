# Verified models of the repository's algorithms and protocols

These Dafny modules model the parts of the services whose correctness is not visible from any
one function: the newsletter's edit distance, draft ledger and approval protocol (dispatch),
the sliding-window rate limiter, the single-flight token refresh and the rank fusion
(almanac), the text splitter, vector store and ingest pipeline (sigint), the Statuspage
approval gate, its audit trail and the circuit breaker (marshal), and the token authorizer
(mcp-gateway).

How the models are built:

- Texts are sequences of 16-bit code units. Doubles are reals, so rounding is not modelled;
  the one square root is a parameter that is assumed to be exact where it matters.
- One SQL statement, one DynamoDB call, one Redis pipeline and one step between two awaits is
  one atomic step. A request that is never advanced again is one that crashed or failed.
- A protocol is a state, labels and an `Apply` function; a run is any sequence of labels, and
  what "always" holds is proved by an invariant over all of them. The same operations run
  without interruption are class methods proved against the same specification functions.
- Clocks, random members, hashes, embeddings and everything the outside world answers are
  parameters.

Files, by component: `EditDistance`, `Drafts`, `Handlers`, `DraftLifecycle`, `HtmlEscape`, `Dedup`
(dispatch); `RateLimiter`, `TokenRefresh`, `RefreshProtocol`, `RankFusion` (almanac);
`Splitter`, `Chunker`, `Ids`, `Vectors`, `VectorStore`, `Ingest`, `Pipeline` (sigint);
`AuditTrail`, `StatuspageGate`, `ApprovalGate`, `CircuitBreaker` (marshal); `Authorizer`
(mcp-gateway); `Utf16`, `Reals`, `Sorting`, `Wrappers` are shared.

Where the code promises less than one might expect, the model keeps the code and says exactly
how far the promise goes: the emailed text (`EmailIsStoredTextIff`, `EmailCanBeStale`), the rate
limit under overlap (`AdmissionBound`, `BoundIsReached`), the approval row of a publish
(`PublishedBodyWasApprovedIff`, `SameMillisecondApprovalIsLost`), the refresh token that is the
empty string (`StoredGrantKeepsRefreshToken`, `EmptyTokenIsStored`), the refresh keys of provider
names with colons (`KeysCollideIff`), the pause after a failed probe (`ReopenedRefusesIff`), and
the change score of an unchanged page (`UnchangedPageScoresZeroIff`).

The comment in marshal's audit module says that a publish is always preceded by an approval.
That holds per incident. Per draft it can fail: an approval row whose millisecond is taken by
another one is dropped silently, so a publish has a row that names its draft and carries the
hash of its body exactly when its own approval write, or one of the same draft and hash since,
found its key free, or the trail already held such a row.

The comment on the draft repository says the guarded update keeps a racing approval from
sending twice; that holds, but the text sent is the one read before the update. An edit that
is overtaken at its save is answered as saved without being stored (`OvertakenRequests`).

## Model

| member | source | states |
|---|---|---|
| EditDistance.LevenshteinDistance | dispatch/src/common/string.ts:7-21 | the filled table's last cell is the cost of a cheapest edit script: one of that cost exists and none is cheaper |
| EditDistance.DistanceIsEditDistance | dispatch/src/common/string.ts:13-19 | the recurrence with its diagonal shortcut is the edit distance on all texts |
| EditDistance.Neighbours | dispatch/src/common/string.ts:15-17 | neighbouring cells differ by at most one, which is why a match may take the diagonal without a minimum |
| EditDistance.NoScriptIsCheaper | dispatch/src/common/string.ts:7-21 | every script costs at least the distance between its two texts |
| EditDistance.Witness | dispatch/src/common/string.ts:7-21 | a script from a to b that costs exactly the distance |
| EditDistance.Symmetric | dispatch/src/common/string.ts:7-21 | the distance is symmetric |
| EditDistance.Triangle | dispatch/src/common/string.ts:7-21 | the triangle inequality, by composing scripts |
| EditDistance.ZeroIffEqual | dispatch/src/common/string.ts:7-21 | zero exactly for equal texts |
| EditDistance.Bounds | dispatch/src/common/string.ts:7-21 | at least the difference and at most the larger of the lengths |
| Drafts.DraftTable.Create | dispatch/src/data/drafts.ts:45-53 | a new row is PENDING with no edit; no other row changes |
| Drafts.DraftTable.FindById | dispatch/src/data/drafts.ts:28-65 | nothing exactly for an unknown id, else the row with its edited text if there is one |
| Drafts.DraftTable.SaveEditCheckpoint | dispatch/src/data/drafts.ts:67-75 | the edit is stored only in a PENDING row; nothing else changes |
| Drafts.DraftTable.Approve | dispatch/src/data/drafts.ts:77-90 | PENDING becomes APPROVED, and the call succeeds exactly when it did |
| Drafts.DraftTable.MarkSent | dispatch/src/data/drafts.ts:92-101 | PENDING or APPROVED becomes SENT; nothing else changes |
| Drafts.AuditWriter.HumanEdit | dispatch/src/data/audit.ts:37-49 | one HUMAN_EDIT row is appended, with its actor, the true edit distance, both lengths and the rounded rate; the rate times the original's length is the distance |
| Drafts.RoundedPctIsNearest | dispatch/src/data/audit.ts:38-40 | the recorded percentage is the multiple of 0.01 nearest to the rate, ties upwards |
| Drafts.AuditWriter.Approved | dispatch/src/data/audit.ts:51-53 | one APPROVED row is appended |
| Drafts.AuditWriter.Sent | dispatch/src/data/audit.ts:55-63 | one SENT row is appended, and an analytics row unless the message already has one |
| Handlers.Api.PostEdits | dispatch/src/api/server.ts:160-173 | the status code for every case; on 200 the row and the ledger hold the edit, otherwise nothing changes |
| Handlers.Api.PostApprove | dispatch/src/api/server.ts:175-206 | the status code for every case; on 200 one email with the stored text (its HTML unescapes to it), APPROVED and SENT rows, status SENT |
| DraftLifecycle.StepKeeps | dispatch/src/api/server.ts:160-206 | every step of every interleaved request keeps the invariant and takes nothing recorded back |
| DraftLifecycle.AlwaysInv | dispatch/src/api/server.ts:160-206 | the invariant over all runs |
| DraftLifecycle.LedgerCoversChange | dispatch/src/api/server.ts:169-171 | in every interleaving the recorded distances sum to at least the distance from the generated to the stored text |
| DraftLifecycle.StoredEditIsLogged | dispatch/src/data/audit.ts:37-49 | a stored edit has its HUMAN_EDIT row, taken against a version of the draft that precedes the stored one |
| DraftLifecycle.LedgerRowHasEarlierBase | dispatch/src/api/server.ts:165-170 | every HUMAN_EDIT row of a run's ledger was written by an edit request, for the change from a text the draft had by then to the request's text |
| DraftLifecycle.EffectsInOrder | dispatch/src/api/server.ts:188-202 | approval row, email, SENT row, in that order and each at most once; SENT means all three; the email is from the winner of the guarded update, with a version that winner read |
| DraftLifecycle.AtMostOneEmail | dispatch/src/data/drafts.ts:77-90 | no run emails a draft twice |
| DraftLifecycle.PastCheckWasAllowed | dispatch/src/api/server.ts:179-182 | in every run, a request that got past its check was found to be an approver's in that request's own first step |
| DraftLifecycle.WinnerWasAllowed | dispatch/src/api/server.ts:179-188 | the request that won the guarded update was so checked, and its user is the recorded approver |
| DraftLifecycle.EmailSenderWasAllowed | dispatch/src/api/server.ts:179-196 | every email of every run comes from a request whose user was found to be an approver |
| DraftLifecycle.OneStepForward | dispatch/src/data/drafts.ts:67-101 | a step moves the status by at most one place forward and writes no text outside PENDING |
| DraftLifecycle.ForwardOnly | dispatch/src/data/drafts.ts:67-101 | over any run the status never goes back and a text that left PENDING is final |
| DraftLifecycle.EmailIsStoredTextIff | dispatch/src/api/server.ts:184-196 | the email is the stored text exactly when the row still held the text the winner had read |
| DraftLifecycle.EmailCanBeStale | dispatch/src/api/server.ts:184-196 | a run in which an edit overtakes an approval and the older text is emailed |
| DraftLifecycle.EditAlone | dispatch/src/api/server.ts:160-173 | the steps of an undisturbed edit amount to the whole handler, in both outcomes |
| DraftLifecycle.ApproveAlone | dispatch/src/api/server.ts:175-206 | the nine steps of an undisturbed approval amount to the whole handler: the whole new state, with the stored text emailed |
| DraftLifecycle.RefusedAlone | dispatch/src/api/server.ts:179-182 | a user who is no approver ends at 403 and changes nothing else |
| DraftLifecycle.ConflictAlone | dispatch/src/api/server.ts:184-186 | approving a draft that is not pending ends at 409 and changes nothing else |
| DraftLifecycle.OvertakenRequests | dispatch/src/data/drafts.ts:67-90 | once the draft has left PENDING, an approval at its guarded update fails, and an edit at its save is answered as saved without being stored |
| DraftLifecycle.EveryDraftIsARun | dispatch/src/data/drafts.ts:43-101 | with any number of drafts each one has lived through exactly the steps addressed to it since it was created |
| DraftLifecycle.CreatedIff | dispatch/src/data/drafts.ts:45-53 | a draft exists exactly when it was created |
| HtmlEscape.SequenceIsSimultaneous | dispatch/src/api/server.ts:282-285 | the five replacements in sequence equal one simultaneous escape |
| HtmlEscape.NoRawCharacters | dispatch/src/api/server.ts:282-285 | no raw angle bracket or quote is left |
| HtmlEscape.UnescapeUndoes | dispatch/src/api/server.ts:282-285 | reading the entities back gives the original, for every text |
| HtmlEscape.EscapeInjective | dispatch/src/api/server.ts:282-285 | different texts render differently |
| HtmlEscape.EntitiesSpell | dispatch/src/api/server.ts:283 | the characters and entities are the ones the handler names |
| Dedup.ComputeSimilarity | dispatch/src/pipeline/ai/ranker.ts:59-64 | the similarity the lemmas are about, computed with the table method |
| Dedup.SimilarityRange | dispatch/src/pipeline/ai/ranker.ts:59-64 | symmetric, between 0 and 1, and 1 exactly for equal texts |
| Dedup.SimilarityIs | dispatch/src/pipeline/ai/ranker.ts:59-64 | the similarity times the longer length is that length less the cost of a cheapest edit script; 1 for two empty texts |
| Dedup.DeduplicateItems | dispatch/src/pipeline/ai/ranker.ts:49-57 | the filter's loop gives the list the lemmas below are about |
| Dedup.KeptAreDifferent | dispatch/src/pipeline/ai/ranker.ts:49-57 | no two kept titles are more than 0.85 similar, either way round |
| Dedup.KeptPositions | dispatch/src/pipeline/ai/ranker.ts:49-57 | the kept items are an order-preserving subsequence, and each dropped one resembles an earlier kept one |
| Dedup.Idempotent | dispatch/src/pipeline/ai/ranker.ts:49-57 | filtering twice changes nothing |
| RateLimiter.Redis.CountPipeline | almanac/src/ratelimit/redis-limiter.ts:56-76 | both sets are pruned to the window, nothing else changes, and the counts are theirs |
| RateLimiter.Redis.AddPipeline | almanac/src/ratelimit/redis-limiter.ts:94-100 | the member is added to both sets and both keys' expiry is renewed |
| RateLimiter.Redis.Check | almanac/src/ratelimit/redis-limiter.ts:55-107 | verdict and store after an undisturbed check: allowed exactly when both counts are under their limits, with which limit refused, what remains and when it resets |
| RateLimiter.LiveIsLastHour | almanac/src/ratelimit/redis-limiter.ts:57-64 | pruning keeps exactly the members younger than one hour, with their stamps |
| RateLimiter.StoreAlwaysOk | almanac/src/ratelimit/redis-limiter.ts:55-107 | in every run, neither pruning nor key expiry loses an admission still in its window, and nothing else is in the sets |
| RateLimiter.CountIsExact | almanac/src/ratelimit/redis-limiter.ts:61-76 | the count is the number of admissions stamped within the last hour |
| RateLimiter.PassesIffRoom | almanac/src/ratelimit/redis-limiter.ts:78-92 | a check passes exactly when user and workspace both have room in the last hour |
| RateLimiter.CountKeepsBound | almanac/src/ratelimit/redis-limiter.ts:55-92 | the count step keeps limit + c - 1 for every window and key |
| RateLimiter.AdmissionBound | almanac/src/ratelimit/redis-limiter.ts:55-107 | with at most c checks between count and add, at most limit + c - 1 admissions are stamped in any hour, per user and workspace |
| RateLimiter.SerialChecksMeetTheLimit | almanac/src/ratelimit/redis-limiter.ts:55-107 | checks that do not overlap keep to the limit itself |
| RateLimiter.BoundIsReached | almanac/src/ratelimit/redis-limiter.ts:55-107 | for every limit and c some run reaches limit + c - 1, so the bound is exact |
| TokenRefresh.RefreshTokenSurvives | almanac/packages/oauth/src/oauth/refresh.ts:174-178 | a refreshed grant has the answer's access token and expiry, the answer's refresh token or else the previous one, and a usable one unless the answer's was the empty string |
| TokenRefresh.TokenRefresher.RefreshCoalesced | almanac/packages/oauth/src/oauth/refresh.ts:76-90 | joins the task under way or registers exactly one new one |
| TokenRefresh.TokenRefresher.DoRefresh | almanac/packages/oauth/src/oauth/refresh.ts:92-201 | result and storage for every answer of the endpoint and every failure of the storage |
| TokenRefresh.KeysCollideIff | almanac/packages/oauth/src/oauth/refresh.ts:52-54 | two provider names share a key for some users exactly when one's "::name" ends the other's |
| TokenRefresh.PlainKeysDistinct | almanac/packages/oauth/src/oauth/refresh.ts:52-54 | provider names without a colon never share a key |
| RefreshProtocol.AlwaysInv | almanac/packages/oauth/src/oauth/refresh.ts:61-201 | the invariant over all interleavings of callers, tasks and other writers |
| RefreshProtocol.SingleFlight | almanac/packages/oauth/src/oauth/refresh.ts:76-90 | the map holds exactly the keys of the running tasks, and at most one runs per key |
| RefreshProtocol.JoinedCallersAgree | almanac/packages/oauth/src/oauth/refresh.ts:76-90 | callers that joined one task get the same answer |
| RefreshProtocol.JoinedTaskIsOwn | almanac/packages/oauth/src/oauth/refresh.ts:52-90 | in a run whose calls name providers without colons a caller only ever waits for its own user's and provider's refresh |
| RefreshProtocol.AnsweredGrantLasts | almanac/packages/oauth/src/oauth/refresh.ts:56-68 | in every run, a grant a caller got without a refresh did not run out within the lead time when it was answered |
| RefreshProtocol.GoOnIff | almanac/packages/oauth/src/oauth/refresh.ts:56-90 | in every run a caller gets nothing without a stored grant, getValidToken gets one that lasts at once, and every other caller waits for a running task of its key |
| RefreshProtocol.UnknownAlone | almanac/packages/oauth/src/oauth/refresh.ts:61-74 | without a stored grant both calls answer null and change nothing |
| RefreshProtocol.ValidAlone | almanac/packages/oauth/src/oauth/refresh.ts:61-65 | an undisturbed getValidToken with a grant that lasts answers it and changes nothing |
| RefreshProtocol.StoredGrantKeepsRefreshToken | almanac/packages/oauth/src/oauth/refresh.ts:174-182 | in every run, what a task stores goes to its own user and provider and has a refresh token, a usable one exactly when the endpoint's was not the empty string |
| RefreshProtocol.AnswerWasGiven | almanac/packages/oauth/src/oauth/refresh.ts:170-178 | the grant a task is about to store is one the endpoint answered to that task earlier in the run |
| RefreshProtocol.RefreshAlone | almanac/packages/oauth/src/oauth/refresh.ts:61-201 | the steps of an undisturbed refresh, or of getValidToken with a grant that does not last, amount to the whole refresh for every answer and storage failure, and its key leaves the map |
| RefreshProtocol.EmptyTokenIsStored | almanac/packages/oauth/src/oauth/refresh.ts:174-181 | for every usable grant a run in which an answer with an empty refresh token replaces it |
| RankFusion.RrfFusion | almanac/src/rag/retriever.ts:70-93 | the loops over the score map give the fused list the lemmas are about |
| RankFusion.TallyIsTotal | almanac/src/rag/retriever.ts:76-88 | the map holds each document once, with the sum of 1/(60 + rank) over its occurrences |
| RankFusion.FusionSpec | almanac/src/rag/retriever.ts:70-93 | each document once, true totals, descending, at most topK, and no omitted document above a returned one |
| RankFusion.HybridSearch | almanac/src/rag/retriever.ts:51-66 | both lists ranked from 1 and fused: each document once, true totals, descending, at most ten, none omitted above a returned one |
| RankFusion.FusedScoreByPosition | almanac/src/rag/retriever.ts:51-66 | a fused score is 1/(61 + position) summed over the lists the document is in |
| RankFusion.TallyFromFirst | almanac/src/rag/retriever.ts:76-88 | the map's entries stand in the order of first occurrence and carry what came with it |
| RankFusion.FusedFromFirst | almanac/src/rag/retriever.ts:89-92 | so do the returned hits, and of two with one score the one found first stands first |
| RankFusion.BothListsBeatOne | almanac/src/rag/retriever.ts:51-93 | with up to 20 distinct documents a list, a document in both ranks above any in one |
| Splitter.SplitOnParts | sigint/src/pipeline/chunker.ts:81 | splitting at a separator: the parts joined give the text back and none contains the separator |
| Splitter.SplitOnIsLeftmost | sigint/src/pipeline/chunker.ts:81 | each part ends where the separator occurs first, so there is one way to take a text apart |
| Splitter.CutHard | sigint/src/pipeline/chunker.ts:70-77 | the last resort cuts the text into the consecutive slices the layout lemmas are about |
| Splitter.HardSplitSizes | sigint/src/pipeline/chunker.ts:70-77 | every slice is exactly maxSize long but the last, which is shorter and not empty |
| Splitter.RecursiveSplit | sigint/src/pipeline/chunker.ts:68-104 | terminates for maxSize >= 1 and gives the segments the layout lemmas are about |
| Splitter.SplitLayout | sigint/src/pipeline/chunker.ts:68-104 | every longer text is its non-empty segments, each at most maxSize, in order with only separators dropped around them; a cut that drops nothing lies in a separator-free stretch longer than maxSize |
| Splitter.PackLayout | sigint/src/pipeline/chunker.ts:82-103 | the same of the merge loop from any point on |
| Splitter.SplitIsTight | sigint/src/pipeline/chunker.ts:85-103 | where every part fits, no two neighbouring segments would fit into one |
| Splitter.PackAtBigPart | sigint/src/pipeline/chunker.ts:86-100 | a part that needs splitting further stands by itself, and what is before and after it is packed as if it were alone |
| Chunker.ChunkText | sigint/src/pipeline/chunker.ts:13-66 | the overlap loop, and the branch for a text that fits, give the chunks the lemmas are about |
| Chunker.ChunksAreSegments | sigint/src/pipeline/chunker.ts:27-63 | for every text there is one chunk a segment, with its id and index: the end of the previous segment, exactly as long as the overlap asks for or that segment is, followed by its own segment; not empty unless the text is, and at most maxSize + overlap long |
| Chunker.ShortTextIsOneChunk | sigint/src/pipeline/chunker.ts:25-35 | a text of at most maxSize is its own only chunk, with its metadata unchanged |
| Chunker.ChunkMetadata | sigint/src/pipeline/chunker.ts:42-63 | the chunks of a longer text add their index and the length of everything in the segments before |
| Chunker.SeparatorsSpell | sigint/src/pipeline/chunker.ts:37 | the separators are the ones the splitter names, in that order |
| Chunker.ChunkIdsDistinct | sigint/src/pipeline/chunker.ts:54-60 | no two chunks of a text share an id |
| Ids.DecimalInjective | sigint/src/pipeline/chunker.ts:55-59 | different indices print differently |
| Ids.DecimalReads | sigint/src/pipeline/chunker.ts:55-59 | an index printed reads back as itself, in decimal digits without leading zeros |
| Ids.ChunkIdInjective | sigint/src/pipeline/chunker.ts:55 | an id determines its source and index, whatever colons the source has |
| Ids.LastColonSplits | sigint/src/pipeline/chunker.ts:55 | what surrounds the last colon is determined by the whole |
| Vectors.Cosine | sigint/src/providers/vectors.ts:28-39 | the accumulating loop computes the quotient of the dot product and the two norms over the first vector's length, 0 if that product is 0, NaN if the second vector is shorter |
| Vectors.CauchySchwarz | sigint/src/providers/vectors.ts:28-39 | the square of the dot product is at most the product of the squared norms |
| Vectors.CosineRange | sigint/src/providers/vectors.ts:28-39 | between -1 and 1 wherever it is defined, symmetric for vectors of one length, and 1 of a non-zero vector with itself |
| Vectors.CosineTimesNorms | sigint/src/providers/vectors.ts:28-39 | the cosine times both norms is the dot product, and it is 0 without a norm |
| Vectors.ZeroNormIffZero | sigint/src/providers/vectors.ts:37-38 | the norm vanishes exactly for the zero vector |
| VectorStore.MemoryVectorStore.Upsert | sigint/src/providers/vectors.ts:48-52 | the documents are put one after the other, and no two ever share an id |
| VectorStore.PutAt | sigint/src/providers/vectors.ts:49-51 | a document takes the place of the one with its id, or the last place |
| VectorStore.PutAllIs | sigint/src/providers/vectors.ts:48-52 | the last document of an id is stored, the others stay, nothing else is there, and ids stay unique |
| VectorStore.MemoryVectorStore.Search | sigint/src/providers/vectors.ts:54-75 | the matching documents by descending cosine, cut at topK; the store is not changed |
| VectorStore.SearchIsTopK | sigint/src/providers/vectors.ts:54-75 | as many matches as asked for and available, best first, none left out above a returned one |
| VectorStore.FoundMatches | sigint/src/providers/vectors.ts:60-72 | a hit has every field of the filter, and its cosine with the query as its score |
| VectorStore.MemoryVectorStore.DeleteByMetadata | sigint/src/providers/vectors.ts:81-91 | exactly the documents with every field of the filter go, the others keep their order, and the number is returned |
| VectorStore.MemoryVectorStore.Count | sigint/src/providers/vectors.ts:93-95 | the number of documents |
| Sorting.SortSorts | sigint/src/providers/vectors.ts:74 | the sorted list is a permutation in descending order |
| Sorting.SortIsStable | almanac/src/rag/retriever.ts:90 | elements of equal score keep their order |
| Sorting.SortKeepsTies | almanac/src/rag/retriever.ts:90 | elements of rising rank keep their order where their scores are equal |
| Ingest.StorePageReplaces | sigint/src/pipeline/index.ts:56-70 | delete and upsert together take out the source's documents and append the page's |
| Ingest.StorePageContents | sigint/src/pipeline/index.ts:56-70 | after a page its source holds exactly its chunks and every other source what it had |
| Ingest.StoredDocumentIs | sigint/src/pipeline/index.ts:36-68 | a stored document is its chunk's id and text, its embedding and the page's fields |
| Ingest.PageChunkIs | sigint/src/pipeline/index.ts:36-46 | pages are cut at 1000 characters with an overlap of 200 |
| Ingest.LastPageWins | sigint/src/pipeline/index.ts:30-72 | after any pages a source holds exactly the chunks of the last one stored for it |
| Ingest.RunsCompose | sigint/src/pipeline/index.ts:22-81 | two runs leave what one run over both logs leaves |
| Ingest.LastForConcat | sigint/src/pipeline/index.ts:22-81 | of two logs in a row the later decides what was last stored for a source, where it has the source at all |
| Pipeline.LastIngested | sigint/src/pipeline/index.ts:30-48 | which page that is in one run: the source's last one of at least 50 characters that no failed embedding kept the run from |
| Pipeline.LastPageOfRuns | sigint/src/pipeline/index.ts:22-81 | after any sequence of runs, failed ones included and each with its own embedder, a source holds exactly the documents of the last page of it that any run ingested, or what it held at the start |
| Pipeline.BestMatchDecides | sigint/src/pipeline/differ.ts:46-49 | the single best match decides whether any stored chunk of the source comes up to the threshold |
| Pipeline.SemanticDiff | sigint/src/pipeline/differ.ts:25-71 | new and unchanged chunks are exactly those without and with a stored chunk at 0.85, with their share |
| Pipeline.DiffCovers | sigint/src/pipeline/differ.ts:40-57 | every chunk is in exactly one list, and the score is between 0 and 1 |
| Pipeline.NewIffNoneSimilar | sigint/src/pipeline/differ.ts:40-57 | a chunk is new exactly when every stored document of its source is less than 0.85 similar to it, else unchanged; the score times the number of chunks is the number of new ones |
| Pipeline.UnchangedPageScoresZeroIff | sigint/src/pipeline/differ.ts:40-57 | a page fetched again with the same text, and the embeddings that text was last stored with, scores 0 exactly when none of them is zero, whatever its title and fetch time and whatever was stored since |
| Pipeline.ReingestedPageScoresZeroIff | sigint/src/pipeline/index.ts:30-72 | so does its entry among the diffs of a later run with the same embedder |
| Pipeline.SameTextSameChunkTexts | sigint/src/pipeline/index.ts:36-48 | what the embedder is given depends on the page's text alone |
| Pipeline.DiffAndReplace | sigint/src/pipeline/index.ts:50-71 | the diff is taken against the store before the replacement |
| Pipeline.IngestAndDiff | sigint/src/pipeline/index.ts:22-81 | store, diffs and total after a run, and when it fails |
| Pipeline.TotalsAgree | sigint/src/pipeline/index.ts:70-80 | the number of chunks stored is the sum of what the diffs report |
| Pipeline.StoreHoldsTheTotal | sigint/src/pipeline/index.ts:56-80 | pages of different sources fill an empty store with exactly that many documents |
| AuditTrail.AuditWriter.Write | marshal/src/utils/audit.ts:81-117 | the row goes in unless its millisecond and action are taken; other incidents are untouched |
| AuditTrail.AuditWriter.WriteStatuspageApproval | marshal/src/utils/audit.ts:119-133 | the approval row carries the body's hash, and some approval is there afterwards even if it collapsed |
| AuditTrail.AuditWriter.VerifyApprovalBeforePublish | marshal/src/utils/audit.ts:135-160 | passes exactly when the incident has an approval row |
| AuditTrail.AuditWriter.AuditApprovalGateViolations | marshal/src/utils/audit.ts:162-195 | the published rows whose incident has no approval, in order |
| AuditTrail.AuditWriter.ViolationsIff | marshal/src/utils/audit.ts:172-193 | a published row is reported, as often as it was published, exactly when its incident has no approval |
| AuditTrail.AuditWriter.NoViolationsIff | marshal/src/utils/audit.ts:162-195 | none is reported exactly when every published row's incident has an approval |
| StatuspageGate.StatuspageApprovalGate.CreateDraft | marshal/src/services/statuspage-approval-gate.ts:29-60 | the draft is stored pending under its millisecond, with its audit row |
| StatuspageGate.StatuspageApprovalGate.ApproveAndPublish | marshal/src/services/statuspage-approval-gate.ts:62-140 | only a pending draft is posted; outcome, item, post and audit rows in every case; a failed post leaves the draft pending and its approval written |
| StatuspageGate.StatuspageApprovalGate.RejectDraft | marshal/src/services/statuspage-approval-gate.ts:142-153 | the item becomes REJECTED whatever it was, even if it was missing, with its audit row |
| ApprovalGate.StepKeeps | marshal/src/services/statuspage-approval-gate.ts:29-153 | every step of every interleaved call keeps the invariant |
| ApprovalGate.AlwaysInv | marshal/src/services/statuspage-approval-gate.ts:29-153 | the invariant over all runs |
| ApprovalGate.PublishedOnlyAfterApproval | marshal/src/utils/audit.ts:6 | no incident is created, and no publish recorded, before an approval row of the incident was inserted, collapsed writes included |
| ApprovalGate.CarriedWasPending | marshal/src/services/statuspage-approval-gate.ts:71-80 | in every run, the draft and body a request carries are those of a draft that was pending when that request loaded it |
| ApprovalGate.PublishedWasPending | marshal/src/services/statuspage-approval-gate.ts:71-96 | every incident created in a run has the body of a draft that was pending when the publishing request loaded it |
| ApprovalGate.RefusedAlone | marshal/src/services/statuspage-approval-gate.ts:78-80 | an approval of a missing or no longer pending draft fails and changes nothing |
| ApprovalGate.RejectAlone | marshal/src/services/statuspage-approval-gate.ts:142-153 | an undisturbed rejection replaces the status, whatever it was, and leaves its row |
| ApprovalGate.CreateAlone | marshal/src/services/statuspage-approval-gate.ts:29-60 | an undisturbed creation leaves a pending draft under its millisecond and its row |
| ApprovalGate.GateNeverRefuses | marshal/src/services/statuspage-approval-gate.ts:81-85 | the check before a publish never refuses a call that has written its approval |
| ApprovalGate.PublishedBodyWasApproved | marshal/src/services/statuspage-approval-gate.ts:81-96 | in a run that drops no approval of a draft without such a row, every publish follows a row that names the draft and carries the hash of the body sent |
| ApprovalGate.OwnRowIff | marshal/src/utils/audit.ts:93-115 | after an approval write its draft and hash have a row of their own exactly when the key of this millisecond was free or the trail already held such a row |
| ApprovalGate.OwnRowLaterIff | marshal/src/utils/audit.ts:93-115 | over any stretch of any run, such a row is there afterwards exactly when it was there before or some approval of that draft and hash found its key free |
| ApprovalGate.PublishedBodyWasApprovedIff | marshal/src/services/statuspage-approval-gate.ts:72-96 | a request publishes the draft and body it loaded, and that publish has its own approval row before it exactly when its own write or one since found the key free, or the row was there already |
| ApprovalGate.ApproveAlone | marshal/src/services/statuspage-approval-gate.ts:62-140 | the steps of an undisturbed approval, with any pause before the record, amount to the whole call |
| ApprovalGate.AuditIsClean | marshal/src/utils/audit.ts:162-195 | the audit finds no violation in any reachable log of any incidents |
| ApprovalGate.SameMillisecondApprovalIsLost | marshal/src/utils/audit.ts:93-115 | a run in which a draft is published though no row ever named it |
| ApprovalGate.EveryIncidentIsARun | marshal/src/services/statuspage-approval-gate.ts:29-153 | with any number of incidents each one has lived through exactly the steps addressed to it |
| CircuitBreaker.Circuit.PruneOldFailures | marshal/src/utils/circuit-breaker.ts:54-57 | the failures inside the window stay, each as often as it was there, and nothing else |
| CircuitBreaker.Circuit.TransitionToHalfOpenIfDue | marshal/src/utils/circuit-breaker.ts:72-77 | an open breaker whose pause is over becomes half-open; nothing else changes |
| CircuitBreaker.Circuit.State | marshal/src/utils/circuit-breaker.ts:80-83 | the reported state is the one after a pause that is over has run out |
| CircuitBreaker.Circuit.Start | marshal/src/utils/circuit-breaker.ts:89-96 | a call is let through exactly when the breaker, after that transition, is not open |
| CircuitBreaker.Circuit.Succeeded | marshal/src/utils/circuit-breaker.ts:98-101 | a success while half-open closes and clears; otherwise nothing changes |
| CircuitBreaker.Circuit.Failed | marshal/src/utils/circuit-breaker.ts:102-116 | a failure while half-open reopens from the call's start; otherwise it is counted, the window is counted anew and compared |
| CircuitBreaker.Circuit.Reset | marshal/src/utils/circuit-breaker.ts:85-87 | closed and cleared |
| CircuitBreaker.InWindowCounts | marshal/src/utils/circuit-breaker.ts:54-57 | pruning leaves as many failures as there are indices of failures not older than windowMs |
| CircuitBreaker.InWindowKeeps | marshal/src/utils/circuit-breaker.ts:54-57 | pruning keeps each failure of the window as often as it is there, and none that is older |
| CircuitBreaker.AlwaysInv | marshal/src/utils/circuit-breaker.ts:54-116 | in every run the pruned list is the full history seen through the window of its last failure |
| CircuitBreaker.OpensAtThreshold | marshal/src/utils/circuit-breaker.ts:108-113 | a counted failure opens the breaker exactly when the failures since the last close that are not older than windowMs, counted one by one, reach the threshold |
| CircuitBreaker.ClosedMeansFew | marshal/src/utils/circuit-breaker.ts:89-116 | closed always means fewer than the threshold among the failures not older than windowMs |
| CircuitBreaker.DispatchesIff | marshal/src/utils/circuit-breaker.ts:89-96 | in every run calls go through exactly while closed or once halfOpenAfterMs has passed since openedAt |
| CircuitBreaker.AskTellsRefusal | marshal/src/utils/circuit-breaker.ts:79-96 | the reported state is open exactly when a call would be refused |
| CircuitBreaker.StaysOpen | marshal/src/utils/circuit-breaker.ts:72-96 | from opening on nothing is dispatched for halfOpenAfterMs, whatever other calls do, short of a reset |
| CircuitBreaker.ReopenedRefusesIff | marshal/src/utils/circuit-breaker.ts:102-107 | after a failed probe, and any steps but failures and resets, a call is refused exactly while halfOpenAfterMs has not passed since the probe's start |
| CircuitBreaker.ClosingForgets | marshal/src/utils/circuit-breaker.ts:66-70 | after a successful probe it takes a threshold of new failures to open the breaker |
| CircuitBreaker.ResetForgets | marshal/src/utils/circuit-breaker.ts:85-87 | so it does after a reset in any state |
| Authorizer.ConstantTimeEquals | mcp-gateway/lambda/authorizer/index.ts:43-56 | exactly text equality |
| Authorizer.Instance.GetExpectedToken | mcp-gateway/lambda/authorizer/index.ts:22-35 | the cached secret while it lasts, the fetched one otherwise, and what is cached afterwards |
| Authorizer.Instance.EvictStaleTokens | mcp-gateway/lambda/authorizer/index.ts:58-61 | exactly the expired tokens go |
| Authorizer.Instance.Handler | mcp-gateway/lambda/authorizer/index.ts:63-83 | the answer and both caches after a request; without a token nothing changes |
| Authorizer.RememberedIs | mcp-gateway/lambda/authorizer/index.ts:58-74 | an accepted token is cached for 4 minutes, no live entry is lost, none at all up to a hundred, and beyond that only live ones stay |
| Authorizer.AcceptedStaysAccepted | mcp-gateway/lambda/authorizer/index.ts:69-74 | an accepted token goes on being accepted for 4 minutes, whatever the secret is by then |
| Authorizer.AlwaysInv | mcp-gateway/lambda/authorizer/index.ts:63-83 | every cached entry is backed by a value the secret once had, over all runs |
| Authorizer.AcceptedTokenWasSecret | mcp-gateway/lambda/authorizer/index.ts:16-83 | a token accepted at T was the secret at some instant in the last 8 minutes |
| Authorizer.UncachedIsExact | mcp-gateway/lambda/authorizer/index.ts:63-83 | with both caches cold or run out, acceptance is being the secret now |
| Authorizer.EightMinutesAreReached | mcp-gateway/lambda/authorizer/index.ts:16-83 | a run that accepts a secret of a single millisecond 8 minutes less 2 ms later |

## Left out

- Draft statuses EXPIRED and FAILED: the schema has them, but no statement of the code writes them.
- Draft columns beyond status, texts and approver (run id in the audit rows, week, sections, timestamps): carried along only.
- The email-analytics table in the interleaved protocol: writing it is a step there, and what it writes is stated by Drafts.AuditWriter.Sent only.
- renderHtml's fixed tags around the escaped body, the subject line and the Slack confirmation's content: constants and formatting.
- RateLimiter.AdmissionBound: one clock that never goes back and is read in one step with the first pipeline, unique members, and a Redis that answers; the branches that fail open are not modelled.
- Splitter.RecursiveSplit: requires maxSize >= 1, because with 0 and a non-empty text the source's loop does not end.
- Chunker.ChunkText: `position` is the sum of the segment lengths before the chunk, as in the code, and not the offset in the text, since dropped separators are not counted.
- Vectors.CosineRange: an exact square root; rounding is not modelled.
- VectorStore.MemoryVectorStore.Search: requires that no matching embedding is shorter than the query; such a one scores NaN, and how a sort places NaN is left to the engine.
- Pipeline.SemanticDiff: the same of the page's own source.
- Pipeline.IngestAndDiff: the embedder is a function of the texts that fails or gives one vector of the store's dimension for each, and the in-memory store's calls do not fail.
- Dedup.DeduplicateItems: lower-casing, the character filter and trimming are a parameter, so the results hold for any normalization.
- The ranker's scoring and sectioning, and the sources feeding it: easy next to the filter.
- ApprovalGate.PublishedBodyWasApproved: SHA-256 is any function of the body; equality of hashes is claimed, not of bodies.
- AuditTrail.AuditWriter.AuditApprovalGateViolations: reads a consistent log; index lag and TTL deletion are not modelled, nor is the scrubbing of details.
- ApprovalGate.AlwaysInv: at most one published incident per draft is not claimed, since two clicks can both read PENDING_APPROVAL.
- CircuitBreaker.AlwaysInv: requires a threshold of at least 1; one probe at a time while half-open is not claimed, since overlapping calls all pass then.
- RefreshProtocol.SingleFlight: that a refresh token is sent only once is not claimed, since a slow read can bring back the old grant.
- TokenRefresh.TokenRefresher.DoRefresh: building the request (credentials, authorization style, timeout) and parsing are left to the answer.
- Authorizer.Instance.Handler: a call is one instant, the header's regular expression and the secret's JSON are parameters, and the discarded loop over texts of different length is not modelled.
- HTTP, Slack, DynamoDB, Redis, OpenSearch, Bedrock and other clients, metrics, logging, configuration, user interfaces: thin wrappers and plumbing.
