# Verified model of the firewall's approval, policy and text-processing core

The repository is a firewall in front of a language model. A request is normalized, scanned by detectors, judged by a
policy, possibly redacted, and either forwarded, denied, or held until a human reviewer decides; an approved request is
resumed once, possibly across crashes, and every step is audited. This project models that core in Dafny and proves what
the repository promises of it. `dafny verify dfyconfig.toml` checks the whole project.

| files | what they model |
|---|---|
| `Rows`, `Lifecycle` | the tables, the material-argument hash, and each atomic block of the approval service as a function on the store; the concurrent system of workers, deciders, sweeps, restarts and payload tampering as a transition system |
| `LifecycleInvariant`, `LifecycleTheorems` | one inductive invariant over every interleaving, and the safety, audit, bound and idempotence theorems that follow |
| `ApprovalEngine` | the service as it is written: a class whose methods update rows in place and roll back on a raise, each proved against the functions above |
| `Decision`, `DecisionAlgebra`, `Pipeline` | condition evaluation, precedence, combination, the per-tool evaluation of the input pipeline, and their laws |
| `PolicyLaws` | what each key of a condition decides, stated on the verdict of a policy, and what precedence and hits mean in plain words |
| `Redaction` | interval merging with label priority, and right-to-left splicing |
| `Normalizer`, `DecodeSearch`, `DecodeReachability` | the normalization steps, and the bounded search through encoded layers |
| `RateLimit` | the fixed-window limiter with its sweep |
| `Ids`, `AuditChain`, `Pagination`, `Session`, `Luhn` | sortable ids, the hash chain that relies on them, cursor pagination, the signed cookie, the card-number check |
| `Text`, `CleaningLaws`, `ToolRules`, `ToolEnforcement` | the string operations, what comment stripping and white-space collapsing preserve, the tool-call detector, and its relation to the policy engine |

`immediate_transaction` makes each block atomic (app/db.py:204-231), so a block is one step and the interleaving points are
the gaps between blocks: after a worker's claim, around its provider call, and before its closing write. A restart kills
every worker, because the service is one process. `MAX_RESUME_ATTEMPTS` is any constant of at least 1 (app/config.py:101).
Every time is an arbitrary parameter of the step that samples it, so nothing relies on the clock being monotone.

Where the code and its documentation differ, the model follows the code:

- The expiry flip inside `decide_approval` (app/approvals.py:539-556) is undone by the exception that follows it
  (app/db.py:219-229): the decision fails closed, but the row stays PENDING until a sweep.
- FAILED is written directly (app/approvals.py:867-876), outside the transition table and its check.
- A claim does not touch `transactions.status`, which therefore reads APPROVED while the row is RESUMING.
- `resume_approved` is only called inline after a decision, so nothing in the service retries a row that a restart returned
  to APPROVED. The model lets any worker claim at any time, which includes that.
- The hash of `compute_material_args_hash` covers roles, contents and tools only; other stored body fields are not covered.
- The docstring of `normalize_text` and SYS-011 claim idempotence. It fails: folding can leave a base letter next to a
  combining mark, which a second NFKC composes. An input and the exact guard are below.
- The docstring of app/detectors/tool_calls.py says the detector cannot drift from the policy. It has: app/decision.py strips
  SQL comments and collapses white space, and the detector does neither.
- The audit chain picks its predecessor by the largest id. Two events of one millisecond can fork it.
- `list_approvals` promises pagination for a queue that mutates during review. With a status filter it restarts at the first
  page once the cursor's row has left the filter, and repeats what it delivered.
- The limiter forgets a window when the clock steps back more than two windows.

## Model

| member | source | states |
|---|---|---|
| LifecycleInvariant.StepKeeps | app/approvals.py:160-900 | every atomic step of every actor, with any sampled time and any tampering with stored payloads, keeps the invariant of store, workers and call history |
| LifecycleInvariant.RunKeeps | app/approvals.py:160-900 | the invariant holds after any interleaving of any number of steps from the empty system |
| LifecycleInvariant.CreateKeepsStore | app/approvals.py:185-267 | creation keeps every existing row's guarantees and starts a PENDING row with one creation event and no decision |
| LifecycleInvariant.DecideKeepsStore | app/approvals.py:499-628 | a decision writes the one reviewer row a PENDING approval lacks, and keeps everyone else's |
| LifecycleInvariant.SweepKeepsStore | app/approvals.py:438-479 | any sweep order keeps the store's guarantees |
| LifecycleInvariant.ReconcileKeepsStore | app/approvals.py:851-900 | so does any recovery order |
| LifecycleTheorems.StepMovesRow | app/approvals.py:87-99 | whoever acts, a row only moves along the table or the one recovery edge to FAILED, keeping its identity; attempts grow exactly on entering RESUMING |
| LifecycleTheorems.FinalIsFinal | app/approvals.py:87-99 | DENIED, EXPIRED, CANCELLED, COMPLETED and FAILED rows never change again in any continuation |
| LifecycleTheorems.ExclusiveOwnership | app/approvals.py:643-709 | in every reachable system two live workers never hold the same approval, and the held row is RESUMING under its holder's attempt |
| LifecycleTheorems.ClaimIsUndisturbed | app/approvals.py:659-846 | any number of steps of others (decide, sweep, claim, tamper, create) leaves a worker's claim and its row as they were |
| LifecycleTheorems.ClosingNeverRejected | app/approvals.py:746-846 | the closing write of a live worker always passes the transition check: completing never raises, denying raises only on a reused idempotency key |
| LifecycleTheorems.AuditReproducesState | app/approvals.py:118-157 | folding an approval's events gives its current state, claims in the log equal `resume_attempts`, `transactions.status` mirrors the state except APPROVED during RESUMING, and only COMPLETED rows carry a completion |
| LifecycleTheorems.AuditIsLinked | app/approvals.py:118-157 | each event's from-state is the state the trail had reached before it, in every reachable store |
| LifecycleTheorems.CalledAsApproved | app/approvals.py:659-744 | whatever reached the provider had exactly one reviewer row, an APPROVE by someone other than the creator, decided and claimed before expiry, and asks what was asked at creation, even under tampering |
| LifecycleTheorems.CompletedWasSent | app/approvals.py:659-846 | in every reachable system a COMPLETED approval did reach the provider under its last claim, asking what was asked at creation, after exactly one in-time APPROVE by someone other than the creator |
| Rows.HashDecidesRequest | app/materialargs.py:17-29 | equal hashes mean the same roles, contents and tools, and conversely; a missing key is a null |
| LifecycleTheorems.OtherFieldsAreNotCovered | app/materialargs.py:17-29 | helper: altering any other body field goes unnoticed |
| LifecycleTheorems.CallsAreBounded | app/approvals.py:659-703 | provider calls for an approval are at most its attempts, at most the maximum, and each belongs to a different claim |
| LifecycleTheorems.MoveSpends | app/approvals.py:851-900 | every change of state lowers a measure on remaining attempts and state |
| LifecycleTheorems.ChangesAreBounded | app/approvals.py:851-900 | no approval changes state more than twice the maximum plus one times in any run |
| LifecycleTheorems.RestartRecovers | app/approvals.py:851-900 | a restart leaves no RESUMING row, and retries exactly those with attempts left |
| LifecycleTheorems.DecisionIsIdempotent | app/approvals.py:509-530 | after any further steps the same key answers with the original row exactly for the same approval, decision and note (absent and empty notes being the same), is a conflict for anything else, changes nothing and triggers no resume |
| LifecycleTheorems.DecisionAppliedExactlyWhen | app/approvals.py:499-628 | the conditions under which the block applies a decision; otherwise the store is unchanged |
| LifecycleTheorems.RefusalIsExplained | app/approvals.py:532-575 | which error a refused decision with a fresh key gets, in which order the causes are looked at, and that the store is unchanged |
| LifecycleTheorems.AtMostOneVerdict | app/approvals.py:592-605 | no approval is ever decided twice from PENDING |
| LifecycleTheorems.CreationTakesEffect | app/approvals.py:185-267 | a successful creation stores exactly the given payload, hash, creator, times and transaction in one PENDING row, and touches nothing else |
| LifecycleTheorems.DecisionTakesEffect | app/approvals.py:577-628 | helper: what an applied decision writes, and that it touches nothing else |
| LifecycleTheorems.ClaimSucceedsExactlyWhen | app/approvals.py:659-709 | helper: when a claim succeeds, and what the worker carries |
| LifecycleTheorems.SentAsClaimed | app/approvals.py:711-744 | a claimed payload that matches its hash is sent unchanged, whatever others do meanwhile |
| LifecycleTheorems.MismatchIsDenied | app/approvals.py:711-741 | one that does not match is never sent: the request is denied, with the decision row and the event that say why |
| LifecycleTheorems.FinishesAsGuarded | app/approvals.py:746-846 | whatever others do short of a restart, an answered worker completes with the sanitized response or denies, as the guard says, with the event, the transaction and, for a denial, the decision row that belong to it |
| LifecycleTheorems.ApprovedWaits | app/approvals.py:352-405 | between decision and claim any steps of others, restarts included, leave an approved row as it is, unless they claim it, alter its payload or sweep after its expiry |
| LifecycleTheorems.PendingWaits | app/approvals.py:438-479 | sweeps before the expiry, restarts and any other steps that apply no decision to a PENDING row and alter no payload of it leave it as it is |
| LifecycleTheorems.ApprovedRequestCompletes | app/approvals.py:352-846 | an approval approved and claimed in time, with its request unaltered until the claim, is sent to the provider and ends COMPLETED with the guarded answer, whatever else others do before the claim, and anything but a restart after it |
| LifecycleTheorems.CreatedRequestIsSent | app/approvals.py:185-846 | from creation on, with nothing assumed of the stored hash: a request created, approved and claimed in time reaches the provider with exactly the payload of its creation and ends COMPLETED, whatever others do in every gap |
| LifecycleTheorems.StuckUntilRestart | app/approvals.py:659-744 | a RESUMING row whose worker is gone stays as it is through any steps without a restart |
| LifecycleTheorems.RaisedWaitsForRestart | app/approvals.py:744-900 | so a claim whose provider call raised waits for the next restart, which retries it exactly while attempts are left |
| LifecycleTheorems.LogIsTruthful | app/approvals.py:118-157 | in every reachable log each event is of the kind its move calls for |
| LifecycleTheorems.ExpiryOnDecisionNeverPersists | app/approvals.py:539-556 | in particular no reachable log holds the event of the expiry that a decision writes and rolls back |
| ApprovalEngine.ApprovalEngine.Rollback | app/db.py:204-231 | a block that raises restores the saved store |
| ApprovalEngine.ApprovalEngine.Transition | app/approvals.py:160-171 | moves the row exactly along the table, and changes nothing when it raises |
| ApprovalEngine.ApprovalEngine.CreateApproval | app/approvals.py:185-267 | in-place creation refines the atomic step, including the rollback on a duplicate key |
| ApprovalEngine.ApprovalEngine.DecideApproval | app/approvals.py:499-628 | the in-place block with its written and rolled-back expiry refines the atomic decision, error by error |
| ApprovalEngine.ApprovalEngine.SweepExpired | app/approvals.py:438-479 | every row that was PENDING or APPROVED with its expiry reached becomes EXPIRED and every other row stays as it was; each is counted once |
| ApprovalEngine.ApprovalEngine.ClaimResume | app/approvals.py:659-709 | the conditional write that expires the row or takes it |
| ApprovalEngine.ApprovalEngine.DenyClaimed | app/approvals.py:711-741 | the denying blocks, with the rollback on a reused key |
| ApprovalEngine.ApprovalEngine.CompleteClaimed | app/approvals.py:815-842 | the completing block |
| ApprovalEngine.ApprovalEngine.ResumeApproved | app/approvals.py:643-846 | an uninterrupted resume is a run of the concurrent system; outcome and final state determine each other, the two denials by whether the payload still matches its hash and what the guard says, and a raise leaves RESUMING |
| ApprovalEngine.ApprovalEngine.DecideAndResume | app/approvals.py:352-415 | sweep, decide and inline resume compose: an applied decision that returns is final; one that raises afterwards is APPROVED without a policy, else RESUMING |
| ApprovalEngine.ApprovalEngine.ReconcileResumingOnStartup | app/approvals.py:851-900 | every RESUMING row goes back to APPROVED while attempts are left, else to FAILED, every other row stays as it was; each is counted once |
| Decision.CategoryScores | app/decision.py:66-72 | the highest score of each category over the findings that are not timeouts |
| Decision.MatchPlanes | app/decision.py:192-245 | a rule matches when its condition holds on one of its planes, and the matched categories are collected from exactly those planes |
| Decision.EvaluatePolicy | app/decision.py:192-285 | the loop computes the evaluation whose laws follow |
| DecisionAlgebra.EvaluateIsOutcome | app/decision.py:192-285 | the verdict is the highest of the firing rules, the codes are exactly those of the winning rules in ascending order, a denial carries no transformation, any other verdict the latest one of its rules, and a hit exists exactly for each firing rule |
| DecisionAlgebra.OutcomeIsUnique | app/decision.py:192-285 | that description determines verdict, codes and transformation |
| DecisionAlgebra.RuleOrderIsIrrelevant | app/decision.py:192-285 | any permutation of rules with unique ids gives the same verdict, codes, transformation and multiset of hits |
| DecisionAlgebra.EvidenceNeverLowers | app/decision.py:89-135 | without `score_lt`, more findings or more rules never lower the verdict |
| DecisionAlgebra.CategoryTestIsMonotoneExactlyWhen | app/decision.py:95-103 | over findings with scores from zero to one, a category test is monotone iff it has no `score_lt`, or one above every score, or a band no score can be in, or tests for timeouts |
| DecisionAlgebra.EvidenceRaisesExactlyWhen | app/decision.py:192-285 | so a policy of one category rule, on any planes, never lowers its verdict with more evidence for exactly those bounds |
| Decision.CombineDecisions | app/decision.py:288-345 | the loop computes the combination whose laws follow |
| DecisionAlgebra.CombinedIsMerged | app/decision.py:288-345 | the single-decision shortcut agrees with the general formula on well-formed decisions |
| DecisionAlgebra.MergedIsMerge | app/decision.py:288-345 | what the formula means: highest verdict, the winners' codes, their latest transformation, every hit id once, degraded if any was |
| DecisionAlgebra.ChunkLaw | app/decision.py:288-345 | combining a concatenation equals combining the two combinations, on every field, hits de-duplicated at their first position with their last value |
| DecisionAlgebra.EvaluateIsWellFormed | app/decision.py:192-285 | evaluations satisfy what the chunk law asks |
| PolicyLaws.DenyWins | app/decision.py:24-26 | one evaluation, and the decision on a whole request, is DENY iff some firing rule denies, else NEED_APPROVAL iff some firing rule asks for it, else ALLOW |
| PolicyLaws.DenyWinsCombined | app/decision.py:288-345 | and so is any combination of decisions |
| PolicyLaws.LastAppliedWins | app/decision.py:28-32 | the transformation reported is the one that comes last in the order of application among the rules of the verdict |
| PolicyLaws.HitRecordsItsRule | app/decision.py:182-245 | a hit carries its rule and exactly the categories that the condition names anywhere and that were found on a plane where it holds |
| PolicyLaws.ByteLimit | app/decision.py:105-106 | a rule on bytes decides exactly above its limit, and so for every longer request |
| PolicyLaws.ListedTools | app/decision.py:108-109 | a rule on listed tools decides exactly for a known tool on the list |
| PolicyLaws.UnlistedTools | app/decision.py:111-112 | and one on unlisted tools exactly for a known tool not on it |
| PolicyLaws.NumberBounds | app/decision.py:114-121 | a rule with a bound on an argument decides exactly for numbers, booleans as 0 and 1, on that side of it; a lower bound hides an upper one |
| PolicyLaws.CategoryBand | app/decision.py:95-103 | a category rule decides exactly when the highest score of its category, timeouts aside, lies in its band |
| PolicyLaws.NestedConditions | app/decision.py:90-93 | a rule of `all` decides iff each part alone would, one of `any` iff one would |
| PolicyLaws.FirstKeyDecides | app/decision.py:89-135 | of several keys in one condition only the first counts |
| PolicyLaws.PathStep | app/decision.py:75-86 | an argument path goes down one object at a time and leads nowhere through anything else |
| PolicyLaws.NoToolNoVerdict | app/pipeline.py:176-195 | without a declared function no test of a tool or an argument decides, whatever the facts carried |
| Pipeline.ToolCandidatesFromDeclaredTools | app/pipeline.py:77-110 | every candidate comes from an element of type function with a non-empty name, with that name and the fields of its own parameters object, and every such element gives one |
| Pipeline.CandidatesInOrder | app/pipeline.py:77-110 | the candidates of two lists one after the other are those of the first, then those of the second |
| Pipeline.DecideInput | app/pipeline.py:176-195 | one evaluation per candidate, combined |
| Pipeline.PipelineIsFlat | app/pipeline.py:176-195 | evaluating per tool and combining equals the flat reading: a rule hits iff it fires under some candidate, with the same verdict, codes, transformation and hit ids |
| Redaction.MergeOverlapping | app/transform.py:104-124 | overwriting the last span in the loop computes the merge of the sorted spans |
| Redaction.MergeIsClosure | app/transform.py:104-124 | merging yields sorted disjoint spans covering the same positions, joined exactly where some span crosses, each with a label of highest sensitivity among those absorbed |
| Redaction.FirstLabelWins | app/transform.py:104-124 | among equally sensitive labels the one that starts first wins |
| Redaction.SortIsStable | app/transform.py:104-124 | helper: and of those that start together, the one found first |
| Redaction.ClosureIsUnique | app/transform.py:104-124 | covered and crossed positions determine the merged intervals |
| Redaction.ApplyRedact | app/transform.py:127-150 | right-to-left splicing equals the left-to-right rebuild that keeps every outside character in order, with the exact record |
| Redaction.RebuildLength | app/transform.py:127-150 | the exact length of the redacted text |
| Normalizer.CleanIsIdempotent | app/normalizer.py:75-102 | stripping, folding and collapsing produce exactly the clean texts and are idempotent together |
| Normalizer.NormalizeIsStableExactlyWhen | app/normalizer.py:87-102 | for every input, normalizing twice is normalizing once iff NFKC accepts what stripping and folding leave |
| Normalizer.PlainInputIsStable | app/normalizer.py:87-102 | so it is when the NFKC form holds nothing that is stripped or folded |
| Normalizer.FoldedPairIsUnstableExactlyWhen | app/normalizer.py:79-102 | a letter before a plain mark is unstable iff NFKC changes the pair once the letter is folded |
| Normalizer.NormalizeIsNotIdempotent | app/normalizer.py:87-102 | one such pair: U+0435 before U+0301 |
| DecodeSearch.DecodeVariants | app/normalizer.py:174-202 | the loop over frontier, seen set and depth computes the layered search, and reports an error exactly when some decoder raised within the depth |
| DecodeReachability.SearchFindsFresh | app/normalizer.py:174-202 | after n layers the search knows exactly the strings reachable within n decode-then-normalize steps that avoid the start, each once at its least depth |
| DecodeReachability.SearchIsComplete | app/normalizer.py:174-202 | for any codec, if the start never comes out again or is its own normal form, the search returns exactly the other strings reachable in 1 to the maximum depth, each once at its least depth |
| DecodeReachability.EncodingIsGenuine | app/normalizer.py:174-202 | every variant found names the first of base64, hex and percent that gives its string on a text of the layer before |
| DecodeReachability.ErrorIsExplained | app/normalizer.py:181-190 | the search reports an error exactly when a decoder raises on the start text or on the normal form of a string reached before the last step |
| DecodeReachability.ReachShrinks | app/normalizer.py:65-152 | with the decoders' lengths and NFKC's bound on ASCII runs, whatever comes out at any depth has fewer bytes than the start's longest ASCII run |
| DecodeReachability.RealSearchIsComplete | app/normalizer.py:174-202 | hence the search is complete for every start text, normalized or not |
| RateLimit.RateLimiter.CheckRateLimit | app/ratelimit.py:92-159 | sweep, increment and answer, with the new table stated in full |
| RateLimit.SweptCount | app/ratelimit.py:113-120 | the swept table counts like an unswept counter for exactly the keys not swept away |
| RateLimit.SweepIsInvisibleExactlyWhen | app/ratelimit.py:92-159 | an answer differs from the unswept counter's iff an earlier request of its window was swept and the requests since are within the limit; it is never stricter, and a clock that never steps back more than two windows excludes a difference |
| RateLimit.SteppingBackResets | app/ratelimit.py:113-120 | a clock that steps back further resets the limit |
| RateLimit.AdmissionIsCapped | app/ratelimit.py:92-159 | each identity is admitted in a window as often as it asks, up to the limit and no further |
| RateLimit.AdmissionIsBounded | app/ratelimit.py:92-159 | and at most twice the limit in any interval of one window's length |
| RateLimit.RetryLandsInNextWindow | app/ratelimit.py:142-151 | a refused caller waits between one second and one window, and lands in the next window |
| Ids.EncodeCrockford32 | app/ids.py:18-23 | the loop and reversal give the fixed-length digits |
| Ids.EncodeKeepsOrder | app/ids.py:18-23 | encodings compare as the numbers do modulo what the length holds: injective and order-preserving |
| Ids.IdsSortByTime | app/ids.py:26-36 | ids of one kind sort by millisecond, and within one by the random part alone |
| AuditChain.ChainUnbrokenExactlyWhen | app/approvals.py:132-142 | the log is one unbroken chain from genesis iff the ids of all events but the last increase |
| AuditChain.IncreasingTimesChain | app/approvals.py:132-142 | strictly increasing milliseconds give an unbroken chain |
| AuditChain.SameMillisecondForks | app/approvals.py:132-142 | two events of one millisecond can fork it |
| AuditChain.HeadDeterminesHistory | app/approvals.py:118-157 | the last hash of an unbroken chain determines its length and every payload |
| Pagination.ListApprovals | app/approvals.py:294-316 | the page after the cursor's row, newest first, with the next cursor iff more rows follow |
| Pagination.OrderIsUnique | app/approvals.py:294-316 | two newest-first listings with the same members are the same |
| Pagination.HeldWalkDeliversOnce | app/approvals.py:294-316 | for any filter and any sequence of changing queues: while every cursor's row is still listed, the walk delivers newest first and no row twice, and once it ends it has delivered every row listed throughout |
| Pagination.WalkPages | app/approvals.py:294-316 | every page of a walk is at most `limit` rows of the table it was read from, all in a listed state, and all but the last are full |
| Pagination.UnfilteredWalk | app/approvals.py:294-316 | without a filter, whatever the states do and wherever rows are added, the walk delivers newest first, no row twice and every initial row; it ends when the other rows that appear behind the start are finitely many |
| Pagination.WalkDeliversEachOnce | app/approvals.py:294-316 | while only newer rows arrive and states change in any way, following the cursor ends and delivers exactly the initial rows, each once, newest first |
| Pagination.RepeatsExactlyWhen | app/approvals.py:305-316 | after any such walk the next page repeats a delivered row iff its cursor has left the queue and the row is on the first page as it is now; that first page is what a lost cursor gets |
| Pagination.DecidedCursorRepeats | app/approvals.py:305-316 | deciding the last row of any first page so that it leaves the filter makes the second page repeat all the rest of the first |
| Session.EncodeRoundTrip | app/session.py:54-60 | decoding inverts unpadded base64url for all bytes (section 5 of RFC 4648) |
| Session.PaddingIsLast | app/session.py:58-60 | padding is read only at the end |
| Session.NumberRoundTrip | app/session.py:82-112 | parsing inverts decimal printing, and no number contains the separator |
| Session.ParsedIsDecimal | app/session.py:108-112 | exactly runs of decimal digits are read, as the numbers they denote |
| Session.FieldsRoundTrip | app/session.py:82-110 | splitting inverts joining for fields without the separator |
| Session.FreshCookieVerifies | app/session.py:74-123 | a fresh cookie gives back session id, identity, expiry and issuing second iff the clock is before expiry and the identity has no separator, and otherwise nothing |
| Session.AcceptedIsSigned | app/session.py:97-123 | helper: an accepted cookie is a well-formed payload with its own signature, not yet expired |
| Session.ForgedSignatureIsRefused | app/session.py:97-107 | any other signature on a payload is refused |
| Session.CookieSplitsOneWay | app/session.py:87-104 | a cookie has one dot, so it splits into payload and signature in one way only |
| Session.QuadIsNumber | app/session.py:54-60 | three bytes as a number of 24 bits are the four sextets of their symbols (section 4 of RFC 4648) |
| Luhn.LuhnValid | app/detectors/pii.py:46-56 | the loop over position parities decides as the standard words the check, from the right (Annex B of ISO/IEC 7812-1) |
| Luhn.SingleChangeDetected | app/detectors/pii.py:46-56 | changing one digit of a valid number always makes it invalid, at any length |
| Luhn.AdjacentSwapDetected | app/detectors/pii.py:46-56 | swapping adjacent digits goes unnoticed exactly when they are equal, or 0 and 9 |
| ToolRules.ToolCallsDetector.constructor | app/detectors/tool_calls.py:89-139 | what the detector extracts from the policy's rules: the first allowlist, the last threshold and tools, all verbs, all pattern names |
| ToolRules.ToolCallsDetector.ScanToolCall | app/detectors/tool_calls.py:146-261 | the findings of a call in order, including unparseable arguments |
| ToolRules.ReportedFor | app/detectors/tool_calls.py:171-253 | what a call is reported for, with which score, exactly when, and that it is reported for nothing else |
| CleaningLaws.CommentsKeepWord | app/decision.py:146-151 | a first word without a comment mark stays the first word when comments are taken out |
| CleaningLaws.CleaningAddsNoWord | app/decision.py:146-151 | taking comments out never puts a word such as WHERE together |
| CleaningLaws.CleaningKeepsKeyword | app/decision.py:146-151 | a keyword that starts the text still starts it |
| CleaningLaws.CollapseKeepsPattern | app/decision.py:163-179 | collapsing white space never loses a single-spaced pattern |
| CleaningLaws.LineCommentIsCut | app/decision.py:146-151 | a line comment, wherever it stands, becomes one space and ends before the line break |
| CleaningLaws.BlockCommentIsCut | app/decision.py:146-151 | a block comment becomes one space and ends at its first close |
| CleaningLaws.UnclosedStays | app/decision.py:146-151 | one that is never closed stays |
| ToolEnforcement.VerbIsAlwaysSeen | app/decision.py:122-126 | the engine sees a verb on every query where the detector does iff the verb contains no comment mark |
| ToolEnforcement.UnboundedSurvives | app/decision.py:127-130 | every unbounded mutation the detector reports the engine also finds |
| ToolEnforcement.ShellSurvives | app/decision.py:166-179 | every shell pattern the detector reports the engine also finds |
| ToolEnforcement.UnboundedOnCleanedText | app/decision.py:127-130 | the engine's mutation test is the detector's test on the text without comments |
| ToolEnforcement.VerbOnCleanedText | app/decision.py:122-126 | the engine's verb is the detector's verb of the text without comments |
| ToolEnforcement.ShellOnCleanedText | app/decision.py:166-179 | the engine's shell test is the detector's test on the text with single spaces |
| ToolEnforcement.CommentLineHidesFromDetectorOnly | app/detectors/tool_calls.py:220-238 | behind any leading comment line the engine judges the query as before and the detector reports nothing about it |
| ToolEnforcement.HighValueIsEnforced | app/detectors/tool_calls.py:201-218 | the high-value rule holds whenever the detector reports; the two differ only on a JSON boolean amount |
| ToolEnforcement.AllowlistIsEnforced | app/detectors/tool_calls.py:189-199 | the allowlist rule holds exactly when the detector reports |
| ToolEnforcement.EveryFindingIsEnforced | app/detectors/tool_calls.py:187-253 | for policies of the shipped form, whatever the detector reports about a parsed call, a rule behind that category fires on it and the engine's verdict is at least that rule's |
| ToolEnforcement.EveryDeclaredFindingIsEnforced | app/pipeline.py:77-195 | for every element of the declared `tools`: a finding of the detector on its name and its own parameters makes a rule behind its category hit in the decision on the whole request, whose verdict is at least that rule's |
| ToolEnforcement.ShippedPolicyIsDefaultShaped | policies/default_policy.yaml:158-190 | the shipped tool rules have that form |
| ToolEnforcement.ShippedRulesFireExactlyWhenDetected | policies/default_policy.yaml:158-190 | on comment-free queries, single-spaced commands and amounts that are not booleans, the shipped tool rules fire iff the detector reports |

## Left out

- Columns that no modelled branch reads: `updated_at`, correlation and risk fields, reason codes, previews, retained response content, and the uniqueness of `request_id`.
- SHA-256 is a free constructor, so collisions are not modelled; HMAC is an arbitrary function from payloads to digests without a dot.
- The provider and the network: a call may return anything, raise, or never return. The output guard is an arbitrary verdict with an arbitrary sanitized response.
- Concurrency inside one atomic block: SQLite's single writer is taken as given.
- ApprovalEngine.ApprovalEngine.Rollback: is the raising branch of the transaction only; the committing branch is that nothing is restored, and the lock is the atomicity of a step.
- ApprovalEngine.ApprovalEngine.ResumeApproved: runs the worker's blocks with no other actor in between, so that its outcome can be stated; the theorems about the concurrent system cover the rest.
- ApprovalEngine.ApprovalEngine.DecideAndResume: its contract composes the blocks with no other actor in between; with others in between, the theorems about the concurrent system apply.
- CANCELLED is in the transition table but no code path enters it; the model keeps the table.
- Metrics counters, where `decide_and_resume` can count one expiry twice.
- Unicode case mapping: upper and lower case are ASCII in `Text`. UTF-8: cookie fields are byte strings, and which of them are UTF-8 is a parameter.
- NFKC and the base64, hex and percent decoders of the search are parameters. Theorems that need facts about them name them: `LikeNfkc` (idempotent, closed under substrings and joining by white space, as Unicode Standard Annex 15 provides) and `RealLengths` (how the decoders shorten a candidate, and how long a run of ASCII characters normalization can make of a text, by the compatibility mappings of Unicode). The finders of redaction spans are an arbitrary list of non-empty spans.
- Session.EncodeRoundTrip: Python's decoder also skips characters outside the alphabet and `int` also accepts underscores and white space, which the model's decoder and parser refuse; no payload the service signs contains them.
- Dates that `datetime` cannot represent, and the sub-second part of the issuing time in a cookie.
- Float rounding: scores and amounts are reals, limiter times integer microseconds.
- DecodeSearch.DecodeVariants: keeps the raw string in each variant, which the original drops after its seen check.
- AuditChain models the log of one approval; Rows keeps the log of all of them without hashes.
- Policy loading and schema validation: every theorem quantifies over policies, with unique ids or the shipped form where stated.
- CSRF tokens, detectors other than the tool-call detector and the Luhn check, HTTP handlers, dashboards, configuration and export: single-branch plumbing around this core.
