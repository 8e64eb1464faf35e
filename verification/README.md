# Verified kernels of CogDoc

CogDoc answers questions about a collection of documents and keeps a store of knowledge derived
from them. This project models the parts of it that decide without a language model, in Dafny,
and proves what they promise for every input, every answer of a model and every run.

`dafny verify dfyconfig.toml` checks everything. Code that changes state step by step is modelled
by classes and methods with loops; each such method is proved against a specification function or
states its whole effect, and the theorems are about that specification.

## What is modelled

- **Derived knowledge** (`KnowledgeLog`, `KnowledgeStore`, `EventImport`, `SqliteStore`,
  `SqliteKnowledge`, `StoreBackends`, `CreateAgreement`, `TiedGroups`). The log of snapshots and its last-wins fold, every operation
  on it, conflict groups, revision chains, stale scans; the SQLite backend with nested
  transactions, rollback, the revision token and the idempotent import, and its operations on its
  own reads and appends; that a run of one backend is a run of the other; and when a creation
  comes to the same in both.
- **Daemon executor** (`DaemonExecutor`). A lock, a FIFO queue, N workers, sentinels,
  cancellation and an admission count as a state machine of atomic steps. `shutdown()` takes items
  off the queue one by one, since workers can take from the queue in between. Every interleaving
  is covered, and shutdown ends under every scheduling that lets workers and shutdown go on.
- **Ranking** (`Sums`, `Ranking`, `Bm25`, `Rrf`). The inverted index equals the plain sum for each
  document, fusion adds reciprocal ranks, and neither depends on the order in which a hash map is
  walked: maps are walked by picking any remaining element.
- **Claim audit** (`Partition`, `BatchPlan`, `ClaimBatches`, `ClaimUnits`, `ClaimAudit`,
  `AnswerAudit`). How an answer is cut into claims, the greedy batching and its optimality, and
  what a passed audit means when the model that judges is not trusted.
- **Citation binding** (`CitationText`, `CitationBinding`, `CitationErasure`, `CitationTwins`,
  `CitationStability`, `CitationIdempotence`, `CitationLines`, `WovenText`, `ClaimPlan`,
  `CitedClaims`). Evidence tags are
  put into the sentences of a section: they can be erased again, binding twice is binding once,
  and which claims of the claim splitter carry one is read off the section beforehand.
- **Evidence selection** (`EvidenceSelection`, `RequirementAudit`). The candidates a verifier is
  shown and the closed-set protocol that its answer must keep.
- **Scanners** (`JsonScanner`, `CitationParser`). A JSON object is found as it was printed, and
  citations are read as they were written.
- **Rate limiting** (`TokenBucket`). A token bucket for each identity, with eviction.

## What the proofs found

- At most one active row for each text of a knowledge base does not hold of every run:
  `set_status` and `revise` check different things, and setting a rejected or archived row active
  again can put two side by side (`KnowledgeLog.ReactivationClash`). It holds throughout a run if
  and only if no operation activates a row whose text another active row has
  (`KnowledgeLog.RunUnique`).
- The rate bound of the token bucket holds between evictions. An eviction hands out a full bucket
  again (`TokenBucket.EvictionRefills`), one for each eviction and no more
  (`TokenBucket.RateBoundWithEvictions`), and an identity is evicted exactly when as many others
  have called as the table has room for (`TokenBucket.ForgottenExactly`). A negative
  `max_identities` makes every call fail.
- Binder and claim splitter do not cut at the same places: a full stop ends a sentence for the
  binder only. So a claim can be several sentences that take no tag, and then it need not be the
  fixed no-evidence sentence itself (`CitedClaims.TwoSentencesOneClaim`). `ClaimPlan.PlanOf`
  reads off a section which claims it will come to and which of them carry a tag: the line falls
  into stretches between terminators, a stretch carries a tag unless none of its sentences takes
  one, a number in front of the first tag is dropped as a list prefix, and a tag left alone that
  way goes to the claim before it. `CitedClaims.ClaimsFollowPlan` proves the plan right claim by
  claim, and `CitedClaims.ClaimsAreCited` that the pipeline keeps its promise exactly for the
  sections whose plan leaves no factual claim uncited.
- The backends can choose different conflict groups for the same row on the same log, since they
  walk their latest rows in different orders (`TiedGroups.BackendsDiffer`). A creation comes to
  the same on every walk if and only if all duplicates of the text are one row or, without a
  duplicate, the grouped rows of the greatest rounded similarity among the grouped ones that
  resemble the text are in one group (`CreateAgreement.CreateAgrees`).
- In ledger mode the citation coverage counts chunk ids, which an evidence document may lack: a
  supported claim can go uncounted even where a document with its evidence id and a chunk id is
  given, if one without comes first (`AnswerAudit.CoverageWithoutChunks`).
  `AnswerAudit.CountedExactly` has the exact condition, for any answer of the model.
- A retrieval or recovery query of blanks only does not fall back to the question: it is taken as
  given and then collapsed to nothing (`RequirementAudit.QueryEmpty`).
- `_extract_json_object` finds the object behind a code fence too, whatever the fence looks like,
  as long as no brace comes first (`JsonScanner.PrintedObjectFound`).
- Three branches of the source are never taken: the zero guard in `_release_pending`
  (`DaemonExecutor.GuardNeverNeeded`), the sentinels put back while cancelling
  (`DaemonExecutor.NoStopBeforeShutdownEnds`) and the error for a batch over the planner's limit
  (`ClaimAudit.VerifyBatch`).
- The bound of `truncate_f64_to_i64` is compared in floating point, so that the number one above
  the greatest 64-bit integer is let through and becomes the greatest
  (`CitationParser.TruncateFloat`); likewise integers just below the range round to its end.

## Model

| member | source | states |
|---|---|---|
| `DaemonExecutor.StepKeepsInv` | src/cogdoc/daemon_executor.py:77-155 | every atomic step of clients, workers and `shutdown()`, in any interleaving, keeps the state invariant: queue shape, counts, who owns which future |
| `DaemonExecutor.RunKeepsInv` | src/cogdoc/daemon_executor.py:77-155 | so does every run |
| `DaemonExecutor.PendingIsExact` | src/cogdoc/daemon_executor.py:116-120 | in every reachable state `_pending` is the queued jobs (cancelled ones included), plus the one in the hand of `shutdown()`, plus those taken and not released, and it never exceeds `max_pending` |
| `DaemonExecutor.GuardNeverNeeded` | src/cogdoc/daemon_executor.py:91-94 | whoever releases finds `_pending` positive, so the guard in `_release_pending` never decides anything |
| `DaemonExecutor.NoWorkerLeavesWorkBehind` | src/cogdoc/daemon_executor.py:96-106 | sentinels stay behind all work; a worker that has left found no work queued and left only after shutdown began |
| `DaemonExecutor.NoStopBeforeShutdownEnds` | src/cogdoc/daemon_executor.py:122-135 | while `_cancel_queued_locked` empties the queue it meets no sentinel, so it retains none |
| `DaemonExecutor.FutureCallsNeverRaise` | src/cogdoc/daemon_executor.py:144-153 | the future a worker holds is in a state in which `set_running_or_notify_cancel`, `set_result` and `set_exception` are allowed |
| `DaemonExecutor.CalledAtMostOnce` | src/cogdoc/daemon_executor.py:137-155 | each function is called at most once, and once exactly for the futures that are running or finished |
| `DaemonExecutor.WaitReturnsDrained` | src/cogdoc/daemon_executor.py:96-114 | when every join of `shutdown(wait=True)` has returned, `_pending` is 0, the queue is empty and every admitted future is settled |
| `DaemonExecutor.EffortFalls` | src/cogdoc/daemon_executor.py:96-155 | once shutdown has begun, every step of a worker or of `shutdown()` spends a bounded effort and no client adds any |
| `DaemonExecutor.NeverStuck` | src/cogdoc/daemon_executor.py:96-155 | and until the workers are gone one of those steps can be taken, so shutdown ends under every scheduling that lets workers and shutdown go on |
| `DaemonExecutor.DaemonFutureExecutor.constructor` | src/cogdoc/daemon_executor.py:40-61 | a new executor is the initial state of the protocol |
| `DaemonExecutor.DaemonFutureExecutor.SubmitWork` | src/cogdoc/daemon_executor.py:77-89 | refuses after shutdown or without a free slot, with the state unchanged, and otherwise queues one new pending future |
| `DaemonExecutor.DaemonFutureExecutor.TakeQueued` | src/cogdoc/daemon_executor.py:124-131 | what `shutdown()` takes from the queue is work that waits, never a sentinel |
| `DaemonExecutor.DaemonFutureExecutor.CancelInHand` | src/cogdoc/daemon_executor.py:131-133 | the job taken is cancelled and its slot given back, and nothing else changes |
| `DaemonExecutor.DaemonFutureExecutor.CancelQueuedLocked` | src/cogdoc/daemon_executor.py:122-135 | exactly the queued futures are cancelled, one slot each is given back, and the queue is empty |
| `DaemonExecutor.DaemonFutureExecutor.ShutdownLocked` | src/cogdoc/daemon_executor.py:96-106 | the first call leaves the work (or, cancelling, none of it) followed by one sentinel a thread; a second changes nothing |
| `DaemonExecutor.DaemonFutureExecutor.PutStops` | src/cogdoc/daemon_executor.py:104-106 | one sentinel a thread goes to the end of the queue |
| `DaemonExecutor.DaemonFutureExecutor.GetItem` | src/cogdoc/daemon_executor.py:138-144 | a sentinel ends the worker, a job becomes its own and was waiting |
| `DaemonExecutor.DaemonFutureExecutor.RunItem` | src/cogdoc/daemon_executor.py:144-153 | a cancelled job is not called, any other is called once and finished |
| `DaemonExecutor.DaemonFutureExecutor.ReleaseItem` | src/cogdoc/daemon_executor.py:154-155 | the slot comes back however the job ended |
| `TokenBucket.TokenBucketRateLimiter.constructor` | src/cogdoc/api/access_control.py:40-51 | a new limiter has the limits given and no bucket |
| `TokenBucket.TokenBucketRateLimiter.DropIdle` | src/cogdoc/api/access_control.py:68-69 | the loop forgets the least recently used identities down to the limit, and fails exactly for a negative limit |
| `TokenBucket.TokenBucketRateLimiter.Allow` | src/cogdoc/api/access_control.py:53-70 | the answer and the new table; it fails exactly if limiting is on and `max_identities` is negative |
| `TokenBucket.NextValid` | src/cogdoc/api/access_control.py:53-70 | after every call the table holds at most `max_identities` identities |
| `TokenBucket.RateBound` | src/cogdoc/api/access_control.py:53-70 | an identity that is not evicted gets at most capacity + refill * T calls through in a window of length T, whatever the clock does in between |
| `TokenBucket.SpentWithinRefill` | src/cogdoc/api/access_control.py:59-65 | and what it has left in its bucket counts against the same budget |
| `TokenBucket.RateBoundWithEvictions` | src/cogdoc/api/access_control.py:53-70 | with evictions, and a clock that goes forward, each eviction adds one full bucket to the bound and no more |
| `TokenBucket.EvictionRefills` | src/cogdoc/api/access_control.py:66-69 | the plain bound does fail across an eviction: a concrete run |
| `TokenBucket.ForgottenExactly` | src/cogdoc/api/access_control.py:66-69 | since its last call an identity is remembered exactly as long as fewer than `max_identities` others have called |
| `TokenBucket.RecentAlways` | src/cogdoc/api/access_control.py:66-69 | the identities behind it in the order are exactly the others that called since |
| `TokenBucket.SlowCallerPasses` | src/cogdoc/api/access_control.py:60-64 | in every run with a clock that goes forward, a caller that waits for one token after each of its calls is never refused |
| `Partition.FewestParts` | src/cogdoc/agents/claim_evidence_verifier.py:540-584 | a saturated cut of a list, for any property that stretches inherit, has no more parts than any other cut with that property |
| `Partition.StaysAhead` | src/cogdoc/agents/claim_evidence_verifier.py:540-584 | after any number of parts such a cut has placed at least as many elements as any other |
| `BatchPlan.PlanBatches` | src/cogdoc/agents/claim_evidence_verifier.py:565-584 | the batches are the units in order, each batch within both limits or one unit set aside, none of which could take the next unit |
| `BatchPlan.Place` | src/cogdoc/agents/claim_evidence_verifier.py:565-582 | one round of the loop adds one unit and keeps the plan good |
| `BatchPlan.FewestBatches` | src/cogdoc/agents/claim_evidence_verifier.py:540-584 | no order-preserving partition into permitted batches has fewer batches |
| `BatchPlan.SetAsideExactly` | src/cogdoc/agents/claim_evidence_verifier.py:572-575 | a unit is set aside exactly if its own evidence is over the limit |
| `BatchPlan.PermittedIsHereditary` | src/cogdoc/agents/claim_evidence_verifier.py:576-580 | a stretch of a permitted batch is permitted |
| `ClaimBatches.UniqueAllowedDocs` | src/cogdoc/agents/claim_evidence_verifier.py:527-537 | the first document of each identity, as the specification function says |
| `ClaimBatches.DedupeKeepsIds` | src/cogdoc/agents/claim_evidence_verifier.py:527-537 | which loses no identity, keeps none twice and adds no document |
| `ClaimBatches.DedupeUnique` | src/cogdoc/agents/claim_evidence_verifier.py:527-537 | and leaves distinct, nonempty identities only |
| `ClaimBatches.EntryHasAllEvidence` | src/cogdoc/agents/claim_evidence_verifier.py:513-520 | a unit's evidence is exactly the evidence its citations name; nothing is trimmed |
| `ClaimBatches.PlanClaims` | src/cogdoc/agents/claim_evidence_verifier.py:540-584 | all of this for the claims and documents of an audit |
| `ClaimBatches.BatchDocs` | src/cogdoc/agents/claim_evidence_verifier.py:896-910 | the documents sent with a batch are those of its claims, each identity once, as many as the planner counted |
| `ClaimAudit.FirstReturned` | src/cogdoc/agents/claim_evidence_verifier.py:938-945 | of the assessments returned, the first for each claim asked counts |
| `ClaimAudit.AssessBatch` | src/cogdoc/agents/claim_evidence_verifier.py:938-1024 | every claim of a batch gets the verdict of the fixed rules on what the model returned for it |
| `ClaimAudit.VerifyBatch` | src/cogdoc/agents/claim_evidence_verifier.py:876-1024 | the error for a batch over the limit on documents is never raised, whatever the model answers |
| `ClaimAudit.RunAudit` | src/cogdoc/agents/claim_evidence_verifier.py:830-1060 | the verdict and the assessed claims, the calls made, and the failure that ends the run |
| `ClaimAudit.KeepIsFilter` | src/cogdoc/agents/claim_evidence_verifier.py:954-982 | the supporting ids are exactly those returned that the claim may use |
| `ClaimAudit.JudgeAllCovers` | src/cogdoc/agents/claim_evidence_verifier.py:840-1024 | unless a call fails every claim is assessed once and in order |
| `ClaimAudit.PassedMeansBacked` | src/cogdoc/agents/claim_evidence_verifier.py:830-1060 | whatever the model returns, a passed audit has every claim, once and in order, supported by evidence its own citations name, or non-factual by the fixed rules |
| `ClaimAudit.PassesExactly` | src/cogdoc/agents/claim_evidence_verifier.py:830-1060 | and it passes exactly if no claim is over the limit, no call fails and the first assessment for each claim is one the rules accept |
| `AnswerAudit.ClaimTexts` | src/cogdoc/agents/claim_evidence_verifier.py:790-818 | behind the limit on fragments no claim is cut off by the limit on claims |
| `AnswerAudit.AuditClaims` | src/cogdoc/agents/claim_evidence_verifier.py:830-1060 | an audit is sound: both statements above in one contract |
| `AnswerAudit.AuditAnswer` | src/cogdoc/agents/claim_evidence_verifier.py:790-1060 | an answer that passes is within the limit, and every fragment of it that states something, once and in order, is backed |
| `AnswerAudit.ClaimIdsDistinct` | src/cogdoc/agents/claim_evidence_verifier.py:300-310 | the ids c1, c2, ... are distinct, which the audit relies on when it looks assessments up |
| `AnswerAudit.SummaryAddsUp` | src/cogdoc/agents/claim_evidence_verifier.py:610-627 | the counts of an audit add up, and it has no failed claim exactly if the supported ones are all the factual ones |
| `AnswerAudit.CountedExactly` | src/cogdoc/agents/claim_evidence_verifier.py:610-627 | whatever the model returns for a claim, being supported makes it count as cited, if and only if the claim is countable: where it has references and ids to be supported by, one of its documents has a chunk id |
| `AnswerAudit.ChunksCountable` | src/cogdoc/agents/claim_evidence_verifier.py:610-627 | outside ledger mode every claim is countable |
| `AnswerAudit.CoverageWithoutChunks` | src/cogdoc/agents/claim_evidence_verifier.py:610-637 | in ledger mode a document with a chunk id behind one of the same evidence id without is dropped, and the claim is supported and not counted as cited: a concrete audit |
| `AnswerAudit.CoverageAboveSupport` | src/cogdoc/agents/claim_evidence_verifier.py:610-637 | the citation coverage is never below the support rate if every claim is countable |
| `ClaimUnits.CandidateFragments` | src/cogdoc/agents/claim_evidence_verifier.py:246-290 | the fragments of an answer, as the specification function says that the pipeline theorems are about |
| `ClaimUnits.AppendPieces` | src/cogdoc/agents/claim_evidence_verifier.py:249-258 | a citation that stands alone joins the fragment before it |
| `ClaimUnits.ExtractClaimUnits` | src/cogdoc/agents/claim_evidence_verifier.py:293-311 | the first `max_claims` fragments that state something |
| `ClaimUnits.TakeClaims` | src/cogdoc/agents/claim_evidence_verifier.py:298-310 | the loop that stops at the limit |
| `ClaimUnits.AuditablePrefix` | src/cogdoc/agents/claim_evidence_verifier.py:298-310 | reading further never changes the claims already taken |
| `CitationBinding.CitationInsertionIndex` | src/cogdoc/agents/summary_generator.py:243-269 | the place before trailing space, the terminator and closing emphasis |
| `CitationBinding.DropClosersLoop` | src/cogdoc/agents/summary_generator.py:257-269 | the loop over closing emphasis |
| `CitationBinding.BindSentenceCitations` | src/cogdoc/agents/summary_generator.py:272-281 | one sentence, with old citations and tags removed and the block inserted |
| `CitationBinding.BindLineCitations` | src/cogdoc/agents/summary_generator.py:284-292 | one line, cut behind its sentence terminators outside protected spans |
| `CitationBinding.AttachSectionCitations` | src/cogdoc/agents/summary_generator.py:296-318 | a whole section with its fences and line endings left alone |
| `CitationErasure.BindPlain` | src/cogdoc/agents/summary_generator.py:272-281 | a sentence without brackets gets the block exactly once, unless it states nothing or is the fixed sentence, when it stays |
| `CitationErasure.EraseGivesBack` | src/cogdoc/agents/summary_generator.py:296-318 | for bracket-free text, erasing the tags from the bound text gives back the text exactly |
| `CitationErasure.OneBlockEach` | src/cogdoc/agents/summary_generator.py:296-318 | the tags in the bound text are one block for each sentence outside fences that states something, and no others |
| `CitationErasure.BlockCount` | src/cogdoc/agents/summary_generator.py:186-189 | a block has one tag for each id |
| `CitationIdempotence.BinderSettles` | src/cogdoc/agents/summary_generator.py:272-281 | binding a bound sentence changes nothing |
| `CitationStability.LineSettles` | src/cogdoc/agents/summary_generator.py:284-292 | binding a bound line from any sentence on changes nothing: the inserted tags move no sentence end and no protected span |
| `CitationIdempotence.LineIsSettled` | src/cogdoc/agents/summary_generator.py:284-292 | so binding a line twice is binding it once |
| `CitationLines.AttachSettles` | src/cogdoc/agents/summary_generator.py:296-318 | bound lines stay lines: their breaks, endings and fences are where they were |
| `CitationLines.AttachTwice` | src/cogdoc/agents/summary_generator.py:296-318 | for bracket-free text, applying the function twice is applying it once |
| `WovenText.WovenCitation` | src/cogdoc/agents/claim_evidence_verifier.py:249-258 | a text with tags woven into it is taken for a lone citation exactly if all the rest of it is filler |
| `WovenText.WovenReferences` | src/cogdoc/agents/claim_evidence_verifier.py:252-254 | the patterns that strip references remove the tags from such a text and nothing else |
| `ClaimPlan.LineTextBehind` | src/cogdoc/agents/claim_evidence_verifier.py:263-285 | dropping heading marks and a list prefix takes nothing but characters at the front, no bracket and no terminator among them |
| `ClaimPlan.LineTextGoesOn` | src/cogdoc/agents/claim_evidence_verifier.py:271-285 | what is dropped in front of a tag does not depend on what comes behind it |
| `CitedClaims.StretchBound` | src/cogdoc/agents/summary_generator.py:284-292 | a stretch of a bound line up to a claim terminator is the stretch of the line with tags woven in, and ends where it does |
| `CitedClaims.FirstStretch` | src/cogdoc/agents/claim_evidence_verifier.py:286-289 | the piece the splitter cuts for a stretch carries a tag if one of the sentences of the stretch took one, and is the stretch itself, trimmed, if none did |
| `CitedClaims.LineClaims` | src/cogdoc/agents/claim_evidence_verifier.py:263-289 | the pieces cut from a bound line of prose are those planned for the line, one by one |
| `CitedClaims.AppendFollows` | src/cogdoc/agents/claim_evidence_verifier.py:249-261 | a bare tag joins the claim before it exactly where planned |
| `CitedClaims.ClaimsFollowPlan` | src/cogdoc/agents/summary_generator.py:272-318 | for plain prose, the claims cut from the bound section are, one by one, those planned from the section: tagged exactly if planned so, and otherwise the text planned |
| `CitedClaims.ClaimsAreCited` | src/cogdoc/agents/claim_evidence_verifier.py:246-311 | so each claim that states something carries a tag or is the fixed no-evidence sentence if and only if the section holds no stretch, its bare-tag merges counted, that is factual, not the fixed sentence, and all of whose own sentences take no tag |
| `CitedClaims.TwoSentencesOneClaim` | src/cogdoc/agents/claim_evidence_verifier.py:246-311 | the condition can fail: two fixed sentences with a full stop between are one factual claim without a tag, for any evidence |
| `JsonScanner.MatchBrace` | src/cogdoc/agents/structured_output.py:85-115 | the inner loop over depth, string and escape |
| `JsonScanner.ExtractJsonObject` | src/cogdoc/agents/structured_output.py:73-117 | the whole function; none where it raises |
| `JsonScanner.CloseExactly` | src/cogdoc/agents/structured_output.py:85-108 | the text found behind a brace is the one whose string-aware depth first returns to zero at its last character, and there is one exactly if some text is so |
| `JsonScanner.FoundExactly` | src/cogdoc/agents/structured_output.py:81-117 | the result is the first balanced text that parses to an object; none exactly if there is none |
| `JsonScanner.PassJson` | src/cogdoc/agents/structured_output.py:92-106 | any JSON value printed by sections 2 to 7 of RFC 8259 leaves depth and string state as they were |
| `JsonScanner.ClosesObject` | src/cogdoc/agents/structured_output.py:85-108 | the scanner closes a printed object exactly at its end |
| `JsonScanner.UnfencedAround` | src/cogdoc/agents/structured_output.py:74-80 | taking a code fence off never cuts into the object inside |
| `JsonScanner.PrintedObjectFound` | src/cogdoc/agents/structured_output.py:73-117 | every printed object behind any text without an opening brace, code fence or not, and in front of any text, is found as printed |
| `CitationParser.ReadDigits` | rust_core/src/citation.rs:63-69 | the loop with checked arithmetic succeeds exactly on digits, half or full width, whose value fits i64 |
| `CitationParser.ParsePageNumber` | rust_core/src/citation.rs:46-70 | blanks trimmed, and a sign where one is allowed |
| `CitationParser.ParseCitationBody` | rust_core/src/citation.rs:73-92 | source and page of one bracket body, or none |
| `CitationParser.NextBracketed` | rust_core/src/citation.rs:98-117 | the next bracketed text and where the search goes on |
| `CitationParser.ExtractCitations` | rust_core/src/citation.rs:95-119 | all citations in order |
| `CitationParser.NumberGrows` | rust_core/src/citation.rs:63-67 | a prefix has no larger value, so an overflow on the way is an overflow in the end |
| `CitationParser.BodyMeans` | rust_core/src/citation.rs:73-92 | every way to write a citation body is read as the source and page meant |
| `CitationParser.RenderThenExtract` | rust_core/src/citation.rs:95-119 | citations written between texts without opening brackets are read back as the same list |
| `CitationParser.CitableExactly` | rust_core/src/citation.rs:46-119 | a citation is found in some answer if and only if its source is trimmed, not empty and without colon and closing bracket, and its page from 0 to the greatest 64-bit integer |
| `CitationParser.DecimalNumber` | rust_core/src/citation.rs:46-70 | every page has a digit string, whose value is the page |
| `CitationParser.TruncateFloat` | rust_core/src/citation.rs:132-142 | a float page is accepted exactly in the range of the source's comparison, and becomes its integer part, the number just above i64 the greatest in it |
| `CitationParser.BuildAllowedRegistry` | rust_core/src/citation.rs:166-190 | exactly the pages of documents with a source and a page, by source |
| `CitationParser.CheckCitations` | rust_core/src/citation.rs:218-248 | the failing citations in order, by unknown source or by unknown page |
| `CitationParser.FailingNone` | rust_core/src/citation.rs:218-248 | there are none exactly if every citation is registered |
| `CitationParser.ValidateCitations` | rust_core/src/citation.rs:202-256 | valid exactly for an empty answer, nothing to cite, the fallback sentence, or at least one citation with all registered; missing exactly if there is none of the four and no citation |
| `CitationParser.EmptyRegistry` | rust_core/src/citation.rs:166-190 | the registry is empty exactly if no document can be cited |
| `Bm25.BuildIndex` | rust_core/src/bm25.rs:26-87 | the index is a function of the documents alone, whatever order the maps are walked in |
| `Bm25.Frequencies` | rust_core/src/bm25.rs:37-40 | the frequencies in a posting are the counts of the tokens |
| `Bm25.EnterDocument` | rust_core/src/bm25.rs:33-48 | postings and document frequencies after one more document |
| `Bm25.InverseFrequencies` | rust_core/src/bm25.rs:56-74 | two passes, in any order of the terms, give each term its idf or the floor |
| `Bm25.Values` | rust_core/src/bm25.rs:57-67 | the first pass: values, their sum and the negative ones |
| `Bm25.Floored` | rust_core/src/bm25.rs:72-74 | the second pass replaces exactly the negative ones |
| `Bm25.FlooredExactly` | rust_core/src/bm25.rs:56-74 | the floor replaces the idf of exactly the terms found in more than half of the documents, for any strictly increasing ln |
| `Bm25.DocFreqRange` | rust_core/src/bm25.rs:41-47 | a term is in the table exactly if some document has it, and its frequency is at most the number of documents |
| `Bm25.TermPresent` | rust_core/src/bm25.rs:90-112 | where a posting is met, its term has an idf, occurs, and the average length is positive |
| `Bm25.SaturationIsFormula` | rust_core/src/bm25.rs:104-107 | there the share is the BM25 formula, its denominator positive for k1 not negative and b from 0 to 1 |
| `Bm25.ValidDefined` | rust_core/src/bm25.rs:104-107 | for k1 not negative and b from 0 to 1 no denominator is zero, so that all scoring below is defined |
| `Bm25.AddPostings` | rust_core/src/bm25.rs:98-110 | one token's postings add its share to exactly the documents that have it |
| `Bm25.ScoreTokens` | rust_core/src/bm25.rs:90-112 | each distinct query token once, times its count, in any order |
| `Bm25.ScoresForQuery` | rust_core/src/bm25.rs:90-112 | every score is the plain sum, over the query tokens with repeats, of idf times saturated frequency |
| `Bm25.ScoreTopk` | rust_core/src/bm25.rs:175-181 | the first of the ranking of all documents by those scores |
| `Bm25.ScoreTopkFiltered` | rust_core/src/bm25.rs:185-207 | out of range exactly if an allowed id is; otherwise the first of the full ranking restricted to the allowed ids |
| `Bm25.EachOnce` | rust_core/src/bm25.rs:194-204 | each allowed id once |
| `Bm25.FilteredRanking` | rust_core/src/bm25.rs:185-207 | restricting before the sort and after it is the same, repeats ignored |
| `Bm25.TopIsBest` | rust_core/src/bm25.rs:114-131 | nothing left out of the top is ahead of anything in it |
| `Bm25.RebuildFromKept` | rust_core/src/bm25.rs:156-172 | the kept documents in the order given and the new ones, or an error exactly if an index is out of range |
| `Bm25.RebuildsAreFresh` | rust_core/src/bm25.rs:156-172 | any chain of rebuilds is a fresh build on the resulting documents, with all that scoring relies on |
| `Ranking.SortIsRanking` | rust_core/src/bm25.rs:114-131 | sorting ranks the same elements |
| `Ranking.RankingUnique` | rust_core/src/bm25.rs:114-131 | a total order leaves only one ranking, so an unstable sort and the order of a map do not matter |
| `Ranking.FilterSorted` | rust_core/src/bm25.rs:185-207 | what is kept of a ranking is a ranking |
| `Sums.CountedSum` | rust_core/src/bm25.rs:90-112 | summing over distinct elements times their counts is summing over the list |
| `Rrf.ScoreMap` | rust_core/src/rrf.rs:98-120 | the map holds, for every key, the sum of 1/(k + rank) over all its occurrences in both lists and the merged retrieval data |
| `Rrf.AddOrUpdate` | rust_core/src/rrf.rs:81-95 | one hit adds its score to its key and leaves the others |
| `Rrf.RankKeys` | rust_core/src/rrf.rs:120-137 | whatever order the map is walked in, the keys come by score and then key |
| `Rrf.Fuse` | rust_core/src/rrf.rs:98-137 | the first `top_n` of that one ranking, each with its score and data |
| `Rrf.OneFusion` | rust_core/src/rrf.rs:98-137 | so fusion has one result, whatever order the map is walked in |
| `Rrf.OneRanking` | rust_core/src/rrf.rs:120-137 | two rankings of the same entries are equal |
| `Rrf.ByScoreTotal` | rust_core/src/rrf.rs:120-137 | score descending and key ascending is a total order |
| `Rrf.StringLessTotal` | rust_core/src/rrf.rs:120-137 | and so is the order of the strings in the keys |
| `Rrf.SwapKeepsOrder` | rust_core/src/rrf.rs:98-137 | swapping the two lists keeps the order of the keys |
| `Rrf.DominanceKept` | rust_core/src/rrf.rs:98-137 | in lists without repeats, a key that both put before another comes before it |
| `EvidenceSelection.SelectVerificationDocs` | src/cogdoc/agents/evidence_verifier.py:192-282 | the documents selected are the first `max_docs` of one order of all candidates |
| `EvidenceSelection.SelectedCount` | src/cogdoc/agents/evidence_verifier.py:192-282 | so they are min(max_docs, n) distinct ones |
| `EvidenceSelection.OrderIsAll` | src/cogdoc/agents/evidence_verifier.py:192-282 | that order has every candidate exactly once |
| `EvidenceSelection.AskedAreMet` | src/cogdoc/agents/evidence_verifier.py:220-257 | with room for as many documents as requirements asked, each requirement any candidate matches is matched by a selected one |
| `EvidenceSelection.GreedyCovers` | src/cogdoc/agents/evidence_verifier.py:220-236 | the greedy picks cover all that the pinned candidates match |
| `EvidenceSelection.GreedySmallest` | src/cogdoc/agents/evidence_verifier.py:214-236 | and for at most three requirements no cover is smaller |
| `EvidenceSelection.PinnedSmallest` | src/cogdoc/agents/evidence_verifier.py:214-242 | both for the pinned documents taken first |
| `EvidenceSelection.GreedyLoop` | src/cogdoc/agents/evidence_verifier.py:222-236 | the loop that takes the best pinned candidate while it gains something |
| `EvidenceSelection.AskedLoop` | src/cogdoc/agents/evidence_verifier.py:244-257 | one candidate for each requirement still open |
| `EvidenceSelection.TakePinned` | src/cogdoc/agents/evidence_verifier.py:212-242 | the pinned phase with requirements or without |
| `EvidenceSelection.TakeRest` | src/cogdoc/agents/evidence_verifier.py:259-282 | what is left, new sources first and then in order |
| `Sequences.UniqueDistinct` | src/cogdoc/agents/evidence_verifier.py:204 | the requirements asked, each once |
| `RequirementAudit.Requirements` | src/cogdoc/agents/evidence_verifier.py:159-188 | the requirements read from the state, at most three raw ones looked at, a query falling back to the question where it is empty before blanks are collapsed |
| `RequirementAudit.RequirementsDistinct` | src/cogdoc/agents/evidence_verifier.py:159-188 | each has its own id and a question, and is made of a raw one; its queries are empty exactly where only blanks were given |
| `RequirementAudit.QueryEmpty` | src/cogdoc/agents/evidence_verifier.py:180-185 | a query is empty exactly if blanks and nothing else were given for it |
| `RequirementAudit.Group` | src/cogdoc/agents/evidence_verifier.py:350-361 | the assessments by requirement, and whether one names no requirement |
| `RequirementAudit.JudgeCandidates` | src/cogdoc/agents/evidence_verifier.py:375-440 | supported exactly if there is one assessment that says so and names given chunks and no others; broken exactly if there is not one, it names a chunk not given, or none where it must |
| `RequirementAudit.JudgeRequirements` | src/cogdoc/agents/evidence_verifier.py:371-440 | all of them, what is missing, what is verified and whether the protocol was broken |
| `RequirementAudit.ValidateAssessments` | src/cogdoc/agents/evidence_verifier.py:345-465 | the report: verdict, missing list, verified chunks |
| `RequirementAudit.SupportedIsBacked` | src/cogdoc/agents/evidence_verifier.py:375-440 | a requirement counts as supported exactly if it has one assessment, which says so with given chunks only |
| `RequirementAudit.SupportedExactly` | src/cogdoc/agents/evidence_verifier.py:345-465 | whatever the model returns, the verdict is supported exactly if its global flag is true, it names nothing from outside the closed sets, and every requirement is backed |
| `RequirementAudit.UnsupportedIsMissing` | src/cogdoc/agents/evidence_verifier.py:442-465 | and otherwise the missing list is not empty |
| `RequirementAudit.MissingIds` | src/cogdoc/agents/evidence_verifier.py:442-463 | the missing ids, in order |
| `RequirementAudit.VerifiedAreGiven` | src/cogdoc/agents/evidence_verifier.py:345-465 | no chunk is reported verified that was not given |
| `RequirementAudit.KeptExactly` | src/cogdoc/agents/evidence_verifier.py:355-450 | the errors the loops collect are exactly the ways to break the protocol |
| `KnowledgeLog.LatestFromHistory` | src/cogdoc/api/derived_knowledge_store.py:691-697 | the latest row of an id is a snapshot of that id in the log |
| `KnowledgeLog.ApplyLatest` | src/cogdoc/api/derived_knowledge_store.py:82-210 | each operation, a script of appends and rewrites, changes the latest rows exactly as it should and no others, and keeps snapshots of one id in agreement |
| `KnowledgeLog.RegroupLatest` | src/cogdoc/api/derived_knowledge_store.py:644-666 | a conflict group is given to exactly the rows named |
| `KnowledgeLog.RunConsistent` | src/cogdoc/api/derived_knowledge_store.py:82-210 | in every run all snapshots of one id agree on knowledge base, text, hash, version and previous id |
| `KnowledgeLog.LinkedStep` | src/cogdoc/api/derived_knowledge_store.py:135-210 | without versions supplied to creations, each row is one version above the row it revises |
| `KnowledgeLog.RunLinked` | src/cogdoc/api/derived_knowledge_store.py:135-210 | in every such run |
| `KnowledgeLog.ChainsEnd` | src/cogdoc/api/derived_knowledge_store.py:135-210 | so revision chains end within as many steps as the version says and never come back |
| `KnowledgeLog.SupersededStep` | src/cogdoc/api/derived_knowledge_store.py:669-688 | while no archived row is revived, every approved revision has an archived predecessor, or one deleted |
| `KnowledgeLog.RunSuperseded` | src/cogdoc/api/derived_knowledge_store.py:669-688 | in every such run |
| `KnowledgeLog.UniqueActiveStep` | src/cogdoc/api/derived_knowledge_store.py:82-210 | an operation leaves at most one active row for each text of a knowledge base if and only if it does not set an inactive row active beside another |
| `KnowledgeLog.RunUnique` | src/cogdoc/api/derived_knowledge_store.py:82-210 | a run keeps them unique throughout if and only if none of its operations does |
| `KnowledgeLog.RunWithoutReactivation` | src/cogdoc/api/derived_knowledge_store.py:468-499 | in particular if `set_status` never reactivates a rejected or archived row |
| `KnowledgeLog.ReactivationClash` | src/cogdoc/api/derived_knowledge_store.py:468-499 | four legal operations after which two active rows have one text |
| `KnowledgeLog.CreateGroups` | src/cogdoc/api/derived_knowledge_store.py:82-132 | a creation puts the new row and exactly the rows it resembles into one conflict group |
| `KnowledgeStore.DerivedKnowledgeStore.constructor` | src/cogdoc/api/derived_knowledge_store.py:76-80 | an empty log |
| `KnowledgeStore.DerivedKnowledgeStore.FindDuplicate` | src/cogdoc/api/derived_knowledge_store.py:617-627 | an active latest row of that knowledge base and hash, found exactly if there is one, whatever the order of the search |
| `KnowledgeStore.DerivedKnowledgeStore.FindSimilar` | src/cogdoc/api/derived_knowledge_store.py:630-641 | exactly the active rows whose similarity to the text reaches the threshold, by falling rounded similarity |
| `KnowledgeStore.DerivedKnowledgeStore.EnsureConflictGroup` | src/cogdoc/api/derived_knowledge_store.py:644-666 | one group for all rows named: the first that one of them has, in their order, or a new one |
| `KnowledgeStore.DerivedKnowledgeStore.Create` | src/cogdoc/api/derived_knowledge_store.py:82-132 | the errors, the duplicate returned unchanged, or exactly one creation with its status, version and group |
| `KnowledgeStore.DerivedKnowledgeStore.Revise` | src/cogdoc/api/derived_knowledge_store.py:135-210 | the errors in their order, or exactly one revision, which inherits what is not supplied and archives its predecessor if approved |
| `KnowledgeStore.DerivedKnowledgeStore.ArchivePreviousVersion` | src/cogdoc/api/derived_knowledge_store.py:669-688 | archives a predecessor that is there and not archived yet, and nothing else |
| `KnowledgeStore.DerivedKnowledgeStore.SetStatus` | src/cogdoc/api/derived_knowledge_store.py:468-499 | an invalid status or unknown id changes nothing; otherwise one status operation and the row it leaves |
| `KnowledgeStore.DerivedKnowledgeStore.Delete` | src/cogdoc/api/derived_knowledge_store.py:551-562 | the row is gone, every other is as it was |
| `KnowledgeStore.DerivedKnowledgeStore.ClearKb` | src/cogdoc/api/derived_knowledge_store.py:277-280 | no row of the knowledge base is left and no other is lost |
| `KnowledgeStore.DerivedKnowledgeStore.BatchSetStatus` | src/cogdoc/api/derived_knowledge_store.py:502-517 | one status operation for each id in order; which were updated and which are missing |
| `KnowledgeStore.DerivedKnowledgeStore.MarkStaleByDocuments` | src/cogdoc/api/derived_knowledge_store.py:565-595 | exactly the approved rows bound to a document that is gone or changed become stale, they are the rows returned, and none such is left |
| `KnowledgeStore.DerivedKnowledgeStore.MarkStaleForSource` | src/cogdoc/api/derived_knowledge_store.py:598-614 | exactly the approved rows bound to that source with the hash given |
| `KnowledgeStore.DerivedKnowledgeStore.MarkStale` | src/cogdoc/api/derived_knowledge_store.py:565-614 | the loop both scans share |
| `KnowledgeStore.DerivedKnowledgeStore.MarkOne` | src/cogdoc/api/derived_knowledge_store.py:587-594 | one row becomes stale |
| `KnowledgeStore.DerivedKnowledgeStore.SetNext` | src/cogdoc/api/derived_knowledge_store.py:511-516 | one more id of a batch |
| `KnowledgeStore.BatchIsChain` | src/cogdoc/api/derived_knowledge_store.py:502-517 | a batch is a chain of changes of status, each legal when its turn comes |
| `KnowledgeStore.SetAllLatest` | src/cogdoc/api/derived_knowledge_store.py:502-517 | a batch short of approval changes exactly the rows named |
| `KnowledgeStore.SetAllKeys` | src/cogdoc/api/derived_knowledge_store.py:502-517 | no batch adds a row or drops one |
| `KnowledgeStore.SameDuplicate` | src/cogdoc/api/derived_knowledge_store.py:617-627 | with unique active rows every order of the search finds the same row |
| `KnowledgeStore.PlaceKeeps` | src/cogdoc/api/derived_knowledge_store.py:630-641 | the order by similarity, one row at a time |
| `SqliteStore.SqliteDerivedKnowledgeStore.constructor` | src/cogdoc/api/derived_knowledge_store.py:727-760 | a store outside every transaction |
| `SqliteStore.SqliteDerivedKnowledgeStore.Latest` | src/cogdoc/api/derived_knowledge_store.py:989-1001 | the rows with the greatest event id of their knowledge id, selected in any order, are the last-wins fold of the log |
| `SqliteStore.SqliteDerivedKnowledgeStore.Append` | src/cogdoc/api/derived_knowledge_store.py:1004-1006 | one event and one revision more |
| `SqliteStore.SqliteDerivedKnowledgeStore.Remove` | src/cogdoc/api/derived_knowledge_store.py:844-865 | the events dropped, and a new revision exactly if there were any |
| `SqliteStore.SqliteDerivedKnowledgeStore.Prepare` | src/cogdoc/api/derived_knowledge_store.py:913-947 | keys by identity and occurrence |
| `SqliteStore.SqliteDerivedKnowledgeStore.LoadRecords` | src/cogdoc/api/derived_knowledge_store.py:949-973 | inserts what is new, skips what is equal, raises on a conflict |
| `SqliteStore.SqliteDerivedKnowledgeStore.Begin` | src/cogdoc/api/derived_knowledge_store.py:1069-1074 | only the outermost transaction begins one in the database, and only it can fail |
| `SqliteStore.SqliteDerivedKnowledgeStore.End` | src/cogdoc/api/derived_knowledge_store.py:1075-1085 | the depth comes back; the outermost transaction commits or rolls back to what it found |
| `SqliteStore.SqliteDerivedKnowledgeStore.LoadItem` | src/cogdoc/api/derived_knowledge_store.py:952-970 | one prepared record is inserted, skipped, or a conflict |
| `SqliteStore.SqliteDerivedKnowledgeStore.LoadPrepared` | src/cogdoc/api/derived_knowledge_store.py:949-970 | all of them, up to a conflict |
| `SqliteStore.SqliteDerivedKnowledgeStore.WriteTransaction` | src/cogdoc/api/derived_knowledge_store.py:1068-1085 | however deep it is entered the depth comes back, and the outermost transaction has the whole effect of its body or none |
| `SqliteStore.SqliteDerivedKnowledgeStore.Perform` | src/cogdoc/api/derived_knowledge_store.py:1068-1085 | statements in order, up to the one that raises |
| `SqliteStore.SqliteDerivedKnowledgeStore.PerformOne` | src/cogdoc/api/derived_knowledge_store.py:1068-1085 | one statement, a nested transaction included |
| `SqliteStore.SqliteDerivedKnowledgeStore.ImportRecords` | src/cogdoc/api/derived_knowledge_store.py:907-973 | fails exactly on a blank record, a lock or a conflict, and then changes nothing |
| `SqliteStore.EffectMoves` | src/cogdoc/api/derived_knowledge_store.py:1047-1052 | a write leaves database and revision alone or raises the revision |
| `SqliteStore.TokenIdentifies` | src/cogdoc/api/derived_knowledge_store.py:882-888 | through writes of any kind that move as those do the revision never falls, and two states with one revision token hold the same events |
| `SqliteStore.RunMoves` | src/cogdoc/api/derived_knowledge_store.py:1068-1085 | and so moves every run of transactions, whatever statements they hold and wherever one raises |
| `SqliteStore.EffectOrdered` | src/cogdoc/api/derived_knowledge_store.py:1016-1045 | event ids stay increasing and below the next one |
| `SqliteStore.SelectedIsLast` | src/cogdoc/api/derived_knowledge_store.py:989-1001 | the row selected for an id is its last in the log, and the other way round |
| `SqliteStore.LastIsLatest` | src/cogdoc/api/derived_knowledge_store.py:989-1001 | the last row of an id is what the fold has for it |
| `SqliteStore.LatestIsLast` | src/cogdoc/api/derived_knowledge_store.py:691-697 | and what the fold has is the last row |
| `SqliteKnowledge.LatestByIds` | src/cogdoc/api/derived_knowledge_store.py:691-697 | the fold is the one of the file backend |
| `SqliteKnowledge.LatestRows` | src/cogdoc/api/derived_knowledge_store.py:989-1001 | the latest rows as SQL selects them are those of the fold, at every point of a transaction |
| `SqliteKnowledge.AppendRow` | src/cogdoc/api/derived_knowledge_store.py:1004-1006 | one row behind the log |
| `SqliteKnowledge.EnsureConflictGroup` | src/cogdoc/api/derived_knowledge_store.py:644-666 | the same group as in the file backend, given to the rows read before by appends inside the transaction |
| `SqliteKnowledge.ArchivePreviousVersion` | src/cogdoc/api/derived_knowledge_store.py:669-688 | reads the latest rows again behind what was appended, and archives as the file backend does |
| `SqliteKnowledge.DeleteInside` | src/cogdoc/api/derived_knowledge_store.py:844-855 | the row last known under the id is returned, and no snapshot of it is left |
| `SqliteKnowledge.CreateInside` | src/cogdoc/api/derived_knowledge_store.py:82-132 | the inherited creation on this backend's own reads and appends does what the file backend does |
| `SqliteKnowledge.ReviseInside` | src/cogdoc/api/derived_knowledge_store.py:135-210 | so does the revision |
| `SqliteKnowledge.SetStatusInside` | src/cogdoc/api/derived_knowledge_store.py:468-499 | and the change of status |
| `KnowledgeStore.CreationDone` | src/cogdoc/api/derived_knowledge_store.py:92-132 | the rows found, grouped and the new one appended make one legal creation |
| `SqliteKnowledge.RevisionDone` | src/cogdoc/api/derived_knowledge_store.py:150-210 | likewise a revision with its archived predecessor |
| `SqliteKnowledge.StatusDone` | src/cogdoc/api/derived_knowledge_store.py:479-499 | likewise a change of status |
| `SqliteKnowledge.Create` | src/cogdoc/api/derived_knowledge_store.py:796-798 | the whole creation or nothing of it; the log is the operation applied to the old log and the revision moves with it |
| `SqliteKnowledge.Revise` | src/cogdoc/api/derived_knowledge_store.py:801-805 | the whole revision or nothing of it, likewise |
| `SqliteKnowledge.SetStatus` | src/cogdoc/api/derived_knowledge_store.py:808-824 | the whole change of status or nothing of it, nested or not |
| `SqliteKnowledge.Delete` | src/cogdoc/api/derived_knowledge_store.py:844-855 | one deletion by SQL leaves the log the file backend's rewriting leaves |
| `SqliteKnowledge.ClearKb` | src/cogdoc/api/derived_knowledge_store.py:858-865 | so does the deletion of a knowledge base |
| `SqliteKnowledge.SetNext` | src/cogdoc/api/derived_knowledge_store.py:511-516 | one more row of a batch, in a nested transaction |
| `SqliteKnowledge.SetEach` | src/cogdoc/api/derived_knowledge_store.py:827-841 | the ids of a batch in order, up to a status that does not exist |
| `SqliteKnowledge.BatchSetStatus` | src/cogdoc/api/derived_knowledge_store.py:827-841 | all rows of the batch as in the file backend, or none |
| `SqliteKnowledge.MarkStale` | src/cogdoc/api/derived_knowledge_store.py:868-879 | both scans in one transaction mark exactly the rows picked |
| `SqliteKnowledge.ScanEach` | src/cogdoc/api/derived_knowledge_store.py:868-879 | the loop both scans share, over the rows read when it began |
| `SqliteKnowledge.ImportRows` | src/cogdoc/api/derived_knowledge_store.py:907-973 | an import puts rows behind the log, and otherwise fails and changes nothing; like every public write above it is one step of a run |
| `StoreBackends.RunAgrees` | src/cogdoc/api/derived_knowledge_store.py:726-1085 | whatever writes, batches and scans a run of the SQLite backend holds, its log is where a run of the file backend with the same operations ends, so that every theorem about those holds here |
| `StoreBackends.RunOrdered` | src/cogdoc/api/derived_knowledge_store.py:1016-1045 | event ids rise in every table of a run of writes, batches, scans and imports |
| `StoreBackends.RunTokens` | src/cogdoc/api/derived_knowledge_store.py:882-888 | in such a run the revision never falls and equal revision tokens mean equal tables |
| `StoreBackends.RunUnique` | src/cogdoc/api/derived_knowledge_store.py:82-132 | in such a run active rows are unique and snapshots of one id agree, batches included |
| `StoreBackends.RunDuplicateAgrees` | src/cogdoc/api/derived_knowledge_store.py:617-627 | in every state of such a run both backends find the same duplicate, if no operation clashes and no import is at odds with the rows there |
| `StoreBackends.ReviseAgrees` | src/cogdoc/api/derived_knowledge_store.py:135-210 | revising on the same log both return and leave the same, if active rows are unique |
| `StoreBackends.DuplicateAgrees` | src/cogdoc/api/derived_knowledge_store.py:617-627 | with unique active rows both backends find the same duplicate though they search in different orders |
| `CreateAgreement.GroupAgrees` | src/cogdoc/api/derived_knowledge_store.py:630-652 | every order in which the search can give the resembling rows leads to one conflict group if and only if the grouped ones of the greatest rounded score have one group |
| `CreateAgreement.CreateAgrees` | src/cogdoc/api/derived_knowledge_store.py:82-132 | a creation returns and leaves the same however the latest rows are walked, if and only if the latest rows, the text and the knowledge base leave one duplicate to return or else one group to choose |
| `CreateAgreement.UniqueIsOne` | src/cogdoc/api/derived_knowledge_store.py:617-627 | unique active rows leave one duplicate |
| `CreateAgreement.LogsAgree` | src/cogdoc/api/derived_knowledge_store.py:82-132 | without ties among resembling rows even the order of the regrouped rows in the log is the same |
| `CreateAgreement.OneOrder` | src/cogdoc/api/derived_knowledge_store.py:630-641 | without ties there is one order by score |
| `TiedGroups.BackendsDiffer` | src/cogdoc/api/derived_knowledge_store.py:82-132 | a concrete run with unique active rows behind which creating one row gives it group C1 if the latest rows are walked by their first snapshots and C2 if by their last |
| `TiedGroups.BothWalk` | src/cogdoc/api/derived_knowledge_store.py:691-697 | both walks meet each latest row once |
| `TiedGroups.AlongIsSimilar` | src/cogdoc/api/derived_knowledge_store.py:630-641 | the stable sort along a walk gives what the search promises |
| `TiedGroups.TiedRun` | src/cogdoc/api/derived_knowledge_store.py:82-132 | the six operations make a legal run |
| `EventImport.ImportThenExport` | src/cogdoc/api/derived_knowledge_store.py:891-973 | import into a store without imports, then export, gives the records in order |
| `EventImport.ImportTwice` | src/cogdoc/api/derived_knowledge_store.py:907-973 | a second import of the same records changes nothing and skips them all |
| `EventImport.ImportInParts` | src/cogdoc/api/derived_knowledge_store.py:907-973 | import of a, then of a + b, is import of a + b, from any table, with counts that add up, or both fail |
| `EventImport.ImportPrefix` | src/cogdoc/api/derived_knowledge_store.py:907-973 | into a store without imports the second import adds \|b\| and skips \|a\| |
| `EventImport.ConflictExactly` | src/cogdoc/api/derived_knowledge_store.py:949-965 | an import fails exactly if a key it gives a record is there with another record |
| `EventImport.PreparedDistinct` | src/cogdoc/api/derived_knowledge_store.py:913-947 | no two records of one import get the same key |
| `EventImport.LoadKeeps` | src/cogdoc/api/derived_knowledge_store.py:949-973 | what was there stays, and otherwise what is there was loaded |
| `EventImport.LoadFinds` | src/cogdoc/api/derived_knowledge_store.py:949-973 | everything loaded is there |

## Left out

- Floating point: scores, tokens and times are reals, so rounding, NaN and infinities are not modelled; where a denominator would be zero (a rank with `k + rank = 0`, a BM25 posting) a precondition says it is not. A float page that is not finite is modelled.
- The natural logarithm is any function, strictly increasing where the theorem about the floor needs it.
- Unicode tables: `str.isdigit` and the class `\d` are parameters with the few properties used (no space and no bracket is a digit); NFKC and case folding inside the hash and the similarity of texts are functions passed in.
- The hash of a text and the digest of an imported record: functions, so two texts with one hash count as one text.
- The language model and `json.loads`: the answer of each call and the verdict on a candidate text are arbitrary parameters.
- Random ids: parameters; the id of a new row is required to be fresh, and the key of an appended event is its own event id.
- Fields of a knowledge row that no rule reads (notes, page ranges, people, times): a row is its id, knowledge base, text, hash, version, previous id, group, bindings and status.
- Files and SQLite itself: the JSONL file is a sequence rewritten atomically, a transaction is a saved copy of the tables, a busy database is a flag given to each operation, and commit does not fail; the retry delays are not modelled.
- `revision_token` of the file backend: it is the modification time and size of a file.
- A knowledge store opened on a log in which snapshots of one id contradict each other: the operations start from an empty store or a consistent log. Every operation keeps it so; an import of rows at odds with the log (`SqliteKnowledge.ImportRows`) need not, and no operation is claimed to work behind one that does not.
- Threads inside the knowledge store: each operation runs alone, as under the store's lock; the stale scans, which the source runs over a list read earlier, see no other writer in between.
- Listing, filtering, counting and review summaries of the knowledge store: they read the latest rows and change nothing.
- `_normalise` helpers for the payload: `DerivedKnowledgeStore.Create` starts from stripped text and knowledge base.
- RRF: documents are values, so a document object that is in both lists and changed through one of them is not modelled; `extract_doc_key` yields a key of any totally ordered type, and how it is built is left out.
- `to_bytes` and `from_bytes` of the BM25 index.
- Gates of an audit before claims are cut (critique, projection, exemptions, citation check): `AnswerAudit.AuditAnswer` starts behind them.
- The chunk ids reported beside the evidence ids in ledger mode: the mapping from one to the other is not part of this model.
- `_deterministically_non_factual` and `_citation_refs`: parameters of the audit; the patterns behind them are modelled in `ClaimUnits` where the claim splitter uses them.
- CitationErasure.EraseGivesBack: for text without brackets, since existing citations and tags are removed by design; so are `CitationLines.AttachTwice` and `CitationErasure.OneBlockEach`.
- CitedClaims.ClaimsFollowPlan: for plain prose (no brackets, backticks, tildes, bars, angle brackets or URLs) and evidence ids in canonical form; so is `CitedClaims.ClaimsAreCited`.
- EvidenceSelection.PinnedSmallest: for at most three requirements, which `_requirements` never exceeds; the greedy cover need not be smallest for more.
- `evidence_verifier.py`: the text sent to the model and the agent around the two functions modelled.
- Prompts, graph workflow, CLI, web API, webhooks, embeddings, tokenizer, document scanning, feedback and conversation stores, backup, restore and migration.
