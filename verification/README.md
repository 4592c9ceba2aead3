# Verification models

Dafny models of the parts of this repository whose correctness depends on every run, every
interleaving or every input, with proofs of what they keep. `dafny verify dfyconfig.toml`
checks everything.

| file | models |
|---|---|
| `DagRunner.dfy`, `MorningBrief.dfy` | the round-based DAG runner, and the morning-brief graph run by it |
| `CircuitBreaker.dfy` | the per-target circuit breaker, with calls that overlap and calls that are cancelled |
| `AdviceLedger.dfy`, `AdviceHistory.dfy` | the hash-chained advice ledger over its table, with racing appenders, and what its payloads are |
| `FutuAuditLog.dfy` | the hash-chained broker audit log |
| `LogMarkup.dfy`, `LogFormat.dfy`, `LogSections.dfy`, `LogFinding.dfy`, `LogEditing.dfy`, `LogReplacing.dfy`, `DecisionLog.dfy`, `LogBody.dfy` | the markdown decision log: its patterns, its printer, parser and editor, why they agree, where an entry is found, when a reflection replaces another, its files, and what their entries tell |
| `SseSplitter.dfy` | the dashboard's incremental event-stream reader |
| `TokenBucket.dfy`, `SlidingWindow.dfy`, `SlotSemaphore.dfy`, `CostMeter.dfy`, `SpendCooldown.dfy` | the limiters, the slot semaphore, and the spend breaker with its cooldown |
| `AdviceSchema.dfy`, `RiskShape.dfy`, `Positions.dfy` | the price rules of an advice, the greedy risk allocator, the life of a paper position |
| `FilingChunker.dfy` | the overlapping chunker for filings |
| `Basics.dfy`, `Text.dfy`, `Scanner.dfy` | sets, strings and first-occurrence scanning, shared by the models |

Objects that the program updates in place are classes with the same fields; each method is
proved equal to a step function on values, and what the program promises is proved about all
runs of that function. Where calls overlap, a run is a sequence of atomic steps in any order:
between two `await`s a coroutine is one step. `float` is `real`, an exception is a value of the
result, and clocks, ids, prices and the outcomes of calls to other systems are inputs.

## What the proofs found

- **DAG runner.** Without conditional edges a run that stays within its deadline ends normally
  exactly when every reachable node is declared, every static parent of a reachable node is reachable, and no reachable
  node lies on a cycle (`DagRunner.Execute`). The class comment says cycles are rejected; the
  code has no such test, and a cycle shows as a stall. A reachable node that was never
  declared ends the run with a `KeyError`.
- **Circuit breaker.** `except Exception` does not see a cancellation, so a cancelled probe
  leaves `half_open_inflight` set. Recovery holds exactly when no probe was cancelled
  (`RecoveryIsExact`); after one cancelled probe no call is admitted again
  (`LostProbeIsFinal`), and such runs exist (`CancelledProbeHappens`).
- **Advice ledger.** The head of the chain is the row with the largest `(issued_at, id)`, not
  the row inserted last. An append with an earlier key is accepted, but from then on the head
  that is read already has a successor, so the unique index refuses every later append of that
  agent. With a new id, an append is let in exactly when the agent's rows so far were inserted
  in key order (`AppendIsExact`); among racing appenders exactly when, besides, nobody inserted
  since the head was read (`CommitIsExact`). The ledger stays open exactly when the new key is
  above that of the head, which a caller can look at before the append (`Ledger.Append`). A
  ledger fails verification exactly when it is shut (`BrokenLedgerIsShut`), and two appends are
  enough (`LedgerCanShut`). The documentation tells the loser of a race to retry: that helps
  while the ledger is open, and never once it is shut. The rows hold the payloads that were
  appended (`ChainTellsTheAppends`), and in a chain that verifies, tampered with or not, the
  last row hash fixes all of them (`VerifiedPayloadsAreFixed`); the stored predecessor of the
  first row is the one thing that verification does not look at (`FirstPredecessorIsNotRead`).
- **Decision log.** A reflection is read back exactly when it contains neither the
  end-of-entry nor the end-of-reflection delimiter (`ReadBackIsExact`). An edit finds the entry
  it is for exactly when nothing printed in front of that entry, field or reflection, quotes its
  opening (`FindingIsExact`): other comments, and openings of other entries, do no harm. If
  something does, the first section with a quote takes the edit, it is reported as done, and the
  entry that was meant is left alone (`QuotedOpeningMisleads`); a quote in the thesis of an
  earlier advice is enough (`QuotedThesisMisleads`). A second reflection replaces the first one
  exactly when the block of the first can be taken back: no end of an entry stands in it, and
  removing the blocks from its printed form leaves only newlines (`AttachTwice`). For a
  reflection that opens no block itself that is the same as being read back
  (`RemovableIsClosed`), and the two closing delimiters are reflections that attaching another
  one does not replace (`AttachTwiceCanFail`). With reflections that can be read back and quote
  no opening, names the patterns can read, other fields free of `<!--`, and no carriage return
  anywhere, every log always says what was written to it: which advice, with which reflection
  (`LogsTellTheHistory`), title, thesis and evidence (`LogsTellTheAdvice`).
- **Event stream.** The reader knows only `"\n\n"`. From a server that ends its lines with
  `"\r\n"`, which section 9.2.6 of the WHATWG HTML Living Standard allows, no token ever
  arrives (`CarriageReturnsHideBreaks`), and an event whose break has not arrived when the
  stream ends is dropped.
- **Slots.** Release deletes the slot key without looking at its owner. Holders are exclusive
  exactly as long as none overstays the time to live (`SlotsAreExact`). For any number of slots
  one that does lets in more holders than there are slots, and they stay too many when it is
  gone (`OverstayingBreaksTheCap`).
- **Budget.** The cost gate comes before the caller's semaphore, so the overshoot of the cap is
  bounded by the chats the gate has let through, from the sum they read on (`SpendBound`), and
  not by the semaphore: with one permit any number of full-price chats can follow one another
  past a cap of any size (`QueueOvershoots`). The bound cannot be lowered, for any cap, price
  and number of chats (`SpendBoundIsTight`).
- **Limiters.** The notifier's deque and the merger's list decide alike, except for a capacity
  of zero, which means "uncapped" to the one and "nothing" to the other (`LimitersAgree`). In
  the token bucket a cancelled wait gives its permit back and keeps its place in the schedule
  (`CancelledPlacesAreSpent`).
- **Positions.** The loss of a position is bounded by one unit of risk exactly when its fill
  lies on the risk side of the stop (`LossBoundIsExact`). Valid advice with a non-negative entry
  midpoint always gives such a fill; the schema does not ask for the midpoint to be
  non-negative, and without that a stop exit can be booked as a gain
  (`NegativeMidpointBreaksTheBound`). The unit of risk is the distance from the fill to the
  stop, although the comment in `exits.py` says it is measured from the midpoint.
- **Chunker.** The overlap is not counted again before a sentence opens a chunk, so a chunk
  exceeds the target exactly when its overlap and its first new sentence together do
  (`LaterExceeds`; for the first chunk, when its first sentence does, `FirstExceeds`). That
  happens although every sentence fits the target: sentences of 6, 4 and 10 tokens with a target
  of 10 and an overlap of 5 give a chunk of 14 (`TargetCanBeExceeded`).

## Model

| member | source | states |
|---|---|---|
| DagRunner.StateGraph.constructor | apps/orchestrator/orchestrator/execute/runner.py:71-76 | a new graph has no nodes, edges or entry |
| DagRunner.StateGraph.AddNode | apps/orchestrator/orchestrator/execute/runner.py:78-93 | a node is declared once; a second declaration is refused |
| DagRunner.StateGraph.AddEdge | apps/orchestrator/orchestrator/execute/runner.py:95-96 | an edge is added behind the others of its source, repetitions included |
| DagRunner.StateGraph.AddConditionalEdges | apps/orchestrator/orchestrator/execute/runner.py:98-100 | a source gets a condition; nothing else changes |
| DagRunner.StateGraph.SetEntry | apps/orchestrator/orchestrator/execute/runner.py:102-103 | the last entry set is the entry |
| DagRunner.ComputeParents | apps/orchestrator/orchestrator/execute/runner.py:193-198 | whatever the order of the edge dictionary, the table holds for every node exactly the sources of edges into it |
| DagRunner.AddParent | apps/orchestrator/orchestrator/execute/runner.py:195-197 | one source becomes a parent of each of its targets, and of nothing else |
| DagRunner.PickReady | apps/orchestrator/orchestrator/execute/runner.py:146-148 | in any iteration order the batch holds each pending node with all parents completed, once |
| DagRunner.RunAll | apps/orchestrator/orchestrator/execute/runner.py:151-174 | every node of the batch gets one result in batch order, which says whether its function returned, or an undeclared node stops the run |
| DagRunner.AddPending | apps/orchestrator/orchestrator/execute/runner.py:179-181 | successors become pending unless they are completed |
| DagRunner.Settle | apps/orchestrator/orchestrator/execute/runner.py:176-181 | handling the results one by one gives the same pending and completed sets as handling the whole batch at once |
| DagRunner.RunRound | apps/orchestrator/orchestrator/execute/runner.py:145-181 | one pass of the loop behind the deadline test is one round of the transition system, or a stall, or an undeclared node |
| DagRunner.RunLoop | apps/orchestrator/orchestrator/execute/runner.py:139-190 | the loop follows a run of the transition system until nothing is pending, nothing is ready, a node is unknown, or the deadline has passed in front of a round; every round that ran started in time |
| DagRunner.StaticOutcome | apps/orchestrator/orchestrator/execute/runner.py:141-190 | without conditional edges a run that did not time out ends normally if and only if the graph is executable |
| DagRunner.Execute | apps/orchestrator/orchestrator/execute/runner.py:115-190 | every call follows a run of the transition system and lists each node once, after its parents; it times out only when the deadline has passed in front of a round; without conditional edges and a timeout it returns normally if and only if the graph is executable, and then has run exactly the reachable nodes |
| DagRunner.RunInvariant | apps/orchestrator/orchestrator/execute/runner.py:141-181 | in every run pending and completed nodes are disjoint, only declared nodes run, nothing that follows a completed node is lost, and each round completes something |
| DagRunner.CompletedMeansRan | apps/orchestrator/orchestrator/execute/runner.py:176-178 | a node is completed exactly when it was in an earlier batch |
| DagRunner.RunsAreOrdered | apps/orchestrator/orchestrator/execute/runner.py:145-181 | in every run, conditional edges included, no node runs twice, none before all its static parents, and there are at most as many rounds as nodes |
| DagRunner.RoundIsLongestPath | apps/orchestrator/orchestrator/execute/runner.py:145-181 | without conditional edges a node runs in the round whose number is the length of the longest path to it from the entry |
| DagRunner.StaticRunsAgree | apps/orchestrator/orchestrator/execute/runner.py:146-181 | without conditional edges any two runs agree round by round, whatever the set order |
| DagRunner.HaltedRunsAgree | apps/orchestrator/orchestrator/execute/runner.py:141-181 | without conditional edges all complete runs are the same run and end the same way |
| DagRunner.FinishedMeansReachable | apps/orchestrator/orchestrator/execute/runner.py:141-190 | a run that ends with nothing pending has completed exactly the nodes reachable from the entry |
| DagRunner.FinishedIsExecutable | apps/orchestrator/orchestrator/execute/runner.py:141-190 | if a run finishes, reachable nodes are declared, their parents reachable, and none is on a cycle |
| DagRunner.StuckIsNotExecutable | apps/orchestrator/orchestrator/execute/runner.py:146-148 | a stall shows a reachable cycle or a parent that cannot be reached |
| MorningBrief.AddPersonas | apps/orchestrator/orchestrator/plan/morning_brief.py:115-138 | the persona nodes are added if and only if no slug is repeated |
| MorningBrief.AddNodes | apps/orchestrator/orchestrator/plan/morning_brief.py:104-186 | all nodes of the brief are declared, unless a slug is repeated |
| MorningBrief.AddFanOut | apps/orchestrator/orchestrator/plan/morning_brief.py:190-193 | the entry gets an edge to every leg, in order |
| MorningBrief.AddFanIn | apps/orchestrator/orchestrator/plan/morning_brief.py:194-197 | every leg gets exactly one edge, to the secretary |
| MorningBrief.AddEdges | apps/orchestrator/orchestrator/plan/morning_brief.py:188-198 | entry and edges together give the brief graph for the slugs |
| MorningBrief.BuildDag | apps/orchestrator/orchestrator/plan/morning_brief.py:115-200 | the built graph is the brief graph if the slugs are distinct, and a duplicate is refused otherwise |
| MorningBrief.BriefTakesFourRounds | apps/orchestrator/orchestrator/plan/morning_brief.py:188-198 | for any personas every complete run of the brief takes four rounds: intelligence, all legs, the secretary, delivery |
| MorningBrief.BriefPrefix | apps/orchestrator/orchestrator/plan/morning_brief.py:188-198 | every run of the brief, also one cut short, goes through the four rounds in order and is complete exactly after the fourth |
| MorningBrief.RunBrief | apps/orchestrator/orchestrator/plan/morning_brief.py:188-200 | building and executing the brief goes through its four rounds, with the secretary after every leg, and finishes for every list of distinct slugs, whichever nodes fail, unless the deadline passes in front of one of the rounds |
| CircuitBreaker.CircuitBreakerRegistry.constructor | apps/orchestrator/orchestrator/plan/breaker.py:58-67 | no target has a state yet |
| CircuitBreaker.CircuitBreakerRegistry.Transition | apps/orchestrator/orchestrator/plan/breaker.py:137-160 | the state is set and the hook told once, and not at all if nothing changes |
| CircuitBreaker.CircuitBreakerRegistry.Enter | apps/orchestrator/orchestrator/plan/breaker.py:93-104 | a call is admitted, admitted as the probe, or rejected; the cooldown is looked at first |
| CircuitBreaker.CircuitBreakerRegistry.LeaveProbe | apps/orchestrator/orchestrator/plan/breaker.py:104-116 | a probe that succeeds closes the breaker with zero failures, one that fails reopens it with a new cooldown |
| CircuitBreaker.CircuitBreakerRegistry.LeaveNormal | apps/orchestrator/orchestrator/plan/breaker.py:118-129 | a success clears the failures, a failure counts and opens the breaker at the threshold, in whatever state it finds it |
| CircuitBreaker.BreakerSafety | apps/orchestrator/orchestrator/plan/breaker.py:93-129 | under every interleaving at most one probe is in flight, the flag is set exactly when one is (or one was cancelled), and closed means fewer failures than the threshold |
| CircuitBreaker.LeavingOpen | apps/orchestrator/orchestrator/plan/breaker.py:96-135 | open is left only by an admission after the cooldown or by the success of a probe already running; while it lasts only a failure moves `opened_at` |
| CircuitBreaker.OpenShields | apps/orchestrator/orchestrator/plan/breaker.py:93-135 | from an open breaker no call reaches the function before the cooldown is over, whatever stragglers do, unless a running probe succeeds |
| CircuitBreaker.FailedProbeShields | apps/orchestrator/orchestrator/plan/breaker.py:104-110 | a probe that fails at t, from any state: no call that arrives before t plus the cooldown is admitted in any continuation without a probe success |
| CircuitBreaker.ThresholdFailureShields | apps/orchestrator/orchestrator/plan/breaker.py:118-125 | the same for a normal failure that reaches the threshold, in whatever state it finds the breaker |
| CircuitBreaker.StragglersExtend | apps/orchestrator/orchestrator/plan/breaker.py:104-125 | after a failed probe every failure of a call still running starts the cooldown anew, until something succeeds |
| CircuitBreaker.OnlyProbesClose | apps/orchestrator/orchestrator/plan/breaker.py:113-129 | in every run a breaker that is not closed stays so until a probe succeeds |
| CircuitBreaker.FailuresOpen | apps/orchestrator/orchestrator/plan/breaker.py:118-125 | a closed breaker opens at exactly the consecutive failure that reaches the threshold |
| CircuitBreaker.EnoughFailuresShield | apps/orchestrator/orchestrator/plan/breaker.py:118-125 | in any interleaving the failure that makes `threshold` of them since the last success starts a cooldown |
| CircuitBreaker.SuccessResets | apps/orchestrator/orchestrator/plan/breaker.py:126-129 | after a success on a closed breaker fewer than `threshold` failures let every call through, however calls overlap |
| CircuitBreaker.LostProbeIsFinal | apps/orchestrator/orchestrator/plan/breaker.py:99-116 | once a probe was cancelled no continuation of the run admits a call |
| CircuitBreaker.RecoveryIsExact | apps/orchestrator/orchestrator/plan/breaker.py:99-135 | from every reachable state with nothing in flight, the cooldown and one successful call give closed with zero failures if and only if no probe was cancelled |
| CircuitBreaker.CancelledProbeHappens | apps/orchestrator/orchestrator/plan/breaker.py:104-110 | a run with a cancelled probe exists |
| FutuAuditLog.InMemoryFutuAuditLog.Append | apps/agent_futu/futu/audit.py:82-117 | one entry is added, linked to the head and hashed with it |
| FutuAuditLog.InMemoryFutuAuditLog.MarkOk | apps/agent_futu/futu/audit.py:119-125 | the first entry with the id gets its status and summary; nothing else changes |
| FutuAuditLog.InMemoryFutuAuditLog.MarkError | apps/agent_futu/futu/audit.py:127-133 | the first entry with the id gets its status and error; nothing else changes |
| FutuAuditLog.InMemoryFutuAuditLog.VerifyChain | apps/agent_futu/futu/audit.py:135-152 | verification succeeds if and only if every entry is linked to the one before it and carries its own digest |
| FutuAuditLog.EntriesAreAppends | apps/agent_futu/futu/audit.py:82-133 | after any operations the log holds one entry for each append, with its fields, in order |
| FutuAuditLog.AppendedIsPending | apps/agent_futu/futu/audit.py:82-117 | an appended entry holds the given fields and is pending, with no summary and no error |
| FutuAuditLog.LastMarkDecides | apps/agent_futu/futu/audit.py:119-133 | over every run the last mark on the first entry of an id decides its status, and the last mark of each kind its summary or error |
| FutuAuditLog.UnmarkedStays | apps/agent_futu/futu/audit.py:119-133 | over every run an entry without a mark of a kind keeps that note, and without any mark its status |
| FutuAuditLog.OperationsKeepChain | apps/agent_futu/futu/audit.py:82-152 | no sequence of operations makes an intact chain fail or a broken one pass |
| FutuAuditLog.FromEmptyVerifies | apps/agent_futu/futu/audit.py:82-152 | a log built by the three operations always verifies |
| FutuAuditLog.SameHeadSameLog | apps/agent_futu/futu/audit.py:135-156 | two verifying logs with the same head have the same length and the same hashed fields |
| FutuAuditLog.TamperEvidence | apps/agent_futu/futu/audit.py:135-156 | for verifying logs, equal heads if and only if equal hashed fields everywhere, so no edit, deletion, insertion or reordering survives with the head fixed |
| FutuAuditLog.StatusIsNotProtected | apps/agent_futu/futu/audit.py:96-156 | status, summary and error can be rewritten without verification or head noticing |
| AdviceLedger.Ledger.SelectChainHead | packages/data-lake/data_lake/advice_ledger.py:56-68 | no head exactly without rows of the agent; otherwise the row hash of one of its rows, none of which has a larger (issued_at, id) |
| AdviceLedger.Ledger.Insert | packages/data-lake/data_lake/advice_ledger.py:113-159 | a row is let in exactly when id and (agent, prev_hash) are new and its predecessor exists |
| AdviceLedger.Ledger.Append | packages/data-lake/data_lake/advice_ledger.py:71-160 | one row with the agent, key and payload of the advice, pointing at the head and hashed with it, whose hash is returned; or an exception and an unchanged table; on a table that appends built, let in exactly for a new id on a chain in key order, which stays so exactly when the new key is above the head |
| AdviceLedger.Ledger.VerifyChain | packages/data-lake/data_lake/advice_ledger.py:163-199 | on any table, tampered with or not, the loop reports empty, intact exactly when every row carries the digest of its payload and of the row hash in front of it and points there, or the first row that does not |
| AdviceLedger.RowsFormOnePath | packages/data-lake/data_lake/advice_ledger.py:5-6 | in every interleaving of appenders each agent's rows form one path in the order of insertion, and no row has two successors |
| AdviceLedger.CommitIsExact | packages/data-lake/data_lake/advice_ledger.py:5-6 | among racing appenders an insert succeeds exactly when its id is new, the agent's rows are in key order and none was inserted since the head was read |
| AdviceLedger.AppendIsExact | packages/data-lake/data_lake/advice_ledger.py:71-160 | on every reachable table an append with a new id is let in if and only if all earlier appends of the agent came in key order |
| AdviceLedger.VerifyIsExact | packages/data-lake/data_lake/advice_ledger.py:163-199 | empty without rows, ok exactly when every append came above all earlier keys; otherwise it names the one row that did not, which is the first in key order that does not point at its predecessor |
| AdviceLedger.OutOfOrderIsFinal | packages/data-lake/data_lake/advice_ledger.py:56-68 | after one append out of order no row of that agent is ever let in again |
| AdviceLedger.BrokenLedgerIsShut | packages/data-lake/data_lake/advice_ledger.py:71-79 | a reachable ledger fails verification if and only if no continuation whatever lets in another append of the agent |
| AdviceLedger.LedgerCanShut | packages/data-lake/data_lake/advice_ledger.py:71-160 | two appends reach such a ledger |
| AdviceHistory.ChainTellsTheAppends | packages/data-lake/data_lake/advice_ledger.py:108-160 | in every interleaving the rows of an agent, in the order they were inserted, hold agent, key and payload of the advice that was let in |
| AdviceHistory.EqualHashesEqualHistories | packages/data-lake/data_lake/advice_ledger.py:47-53 | two histories of any runs and agents whose last row hashes are equal are the same list of payloads |
| AdviceHistory.VerifiedPayloadsAreFixed | packages/data-lake/data_lake/advice_ledger.py:163-199 | two tables that verify and end in the same row hash hold the same payloads in key order |
| AdviceHistory.FirstPredecessorIsNotRead | packages/data-lake/data_lake/advice_ledger.py:187-196 | the verdict does not depend on the predecessor stored in the first row |
| AdviceHistory.SortedSorts | packages/data-lake/data_lake/advice_ledger.py:171-180 | verification goes through the same rows, by issue time and id |
| LogMarkup.BeginReads | packages/data-lake/data_lake/decision_log.py:46-48 | every text the opening pattern describes is matched, with that id, agent and rest, also where the arrow touches the agent |
| LogMarkup.BeginWritten | packages/data-lake/data_lake/decision_log.py:46-48 | nothing else is matched |
| LogMarkup.ExactReads | packages/data-lake/data_lake/decision_log.py:170-171 | every text the pattern for a given id and agent describes is matched |
| LogMarkup.ExactWritten | packages/data-lake/data_lake/decision_log.py:170-171 | nothing else is matched |
| LogMarkup.MatchersAgree | packages/data-lake/data_lake/decision_log.py:50-55 | on every text the editor's pattern matches exactly where the parser's pattern matches and reads that id and agent, and both leave the same rest |
| LogMarkup.ExactShorter | packages/data-lake/data_lake/decision_log.py:170-171 | an opening cannot reach over a newline with a comment behind it: one that starts in a reflection ends in it |
| LogMarkup.DelimitersApart | packages/data-lake/data_lake/decision_log.py:46-57 | no delimiter can start inside another one |
| LogFormat.InjectIsLocal | packages/data-lake/data_lake/decision_log.py:166-198 | on any text the editor rewrites the first matching entry and copies the text before and behind it |
| LogFormat.InjectMisses | packages/data-lake/data_lake/decision_log.py:176-178 | on any text "not found" is reported exactly when no entry matches anywhere, and the text is left alone |
| LogSections.RenderIsSection | packages/data-lake/data_lake/decision_log.py:144-163 | a printed entry is a section: opening, base, reflection block, end |
| LogSections.EntryIsPrinted | packages/data-lake/data_lake/decision_log.py:144-163 | an entry with readable names is printed as a section whose end or block stands behind a newline, whatever its other fields are |
| LogSections.PrintedIsClean | packages/data-lake/data_lake/decision_log.py:144-163 | printing clean fields writes a section whose only comments are its own and those of its reflection, which quotes no opening |
| LogSections.HeaderFree | packages/data-lake/data_lake/decision_log.py:136-141 | no opening of an entry can start in the header of an agent the patterns can read |
| LogSections.CommentFreeIsHarmless | packages/data-lake/data_lake/decision_log.py:166-215 | a reflection in which no comment opens can be read back and quotes no opening |
| LogSections.SectionMatches | packages/data-lake/data_lake/decision_log.py:50-55 | at the opening of a section the entry pattern matches that section and nothing more: its names, its whole body, the text behind its end |
| LogSections.FindSection | packages/data-lake/data_lake/decision_log.py:201-203 | the parser finds a section as one entry with its whole body, whatever follows it |
| LogSections.ReadsReflection | packages/data-lake/data_lake/decision_log.py:204-214 | the reflection read from a section's body is the one in it, or none |
| LogSections.ParseLog | packages/data-lake/data_lake/decision_log.py:136-215 | parsing a header and any list of sections gives back ids, agents, bodies and reflections in the same order |
| LogFinding.PassSection | packages/data-lake/data_lake/decision_log.py:170-176 | a printed section of another entry is passed over unless its fields or its reflection quote the opening looked for, whatever else they contain |
| LogFinding.FindingIsExact | packages/data-lake/data_lake/decision_log.py:170-178 | the first match for (id, agent) in a log is the opening of the first section of that id and agent, or absent like it, if and only if no field and no reflection in front of it quotes that opening |
| LogFinding.OpeningQuotesItself | packages/data-lake/data_lake/decision_log.py:170-171 | a text that quotes an opening, and keeps it when stripped, exists for every id and agent |
| LogFinding.ThesisQuotes | packages/data-lake/data_lake/decision_log.py:155-163 | a thesis that quotes an opening is printed with the quote |
| LogEditing.NewBodyIsEdited | packages/data-lake/data_lake/decision_log.py:180-192 | removing an old block and writing the new one gives the same body whether or not there was a block |
| LogEditing.EditFirstIs | packages/data-lake/data_lake/decision_log.py:176-198 | only the first section of that id and agent differs after an edit |
| LogEditing.InjectAt | packages/data-lake/data_lake/decision_log.py:170-198 | an entry that is found is rewritten behind its opening up to the first end, also when that end stands in its own reflection |
| LogEditing.InjectLog | packages/data-lake/data_lake/decision_log.py:166-198 | unless something in front of it quotes its opening, the editor edits the first section of that id and agent, leaves all others as they are, and reports whether there was one, whatever the reflection and the other sections contain |
| LogEditing.AttachReadsBack | packages/data-lake/data_lake/decision_log.py:166-215 | after attaching, the parser sees the same entries, except for the reflection and body of the first match, which now carries the stripped reflection |
| LogEditing.ReadBackIsExact | packages/data-lake/data_lake/decision_log.py:166-215 | for every reflection, it is read back at its entry if and only if it contains neither the end-of-entry nor the end-of-reflection delimiter |
| LogEditing.QuotedOpeningMisleads | packages/data-lake/data_lake/decision_log.py:170-198 | when a field or a reflection in front of it does quote it, the first section with a quote takes the edit and holds the new block, it is reported as done, and everything in front of and behind that section is left as it was |
| LogEditing.QuotedThesisMisleads | packages/data-lake/data_lake/decision_log.py:170-198 | two advice appended, the thesis of the first quoting the opening of the second: every reflection for the second goes into the entry of the first |
| LogReplacing.AttachTwice | packages/data-lake/data_lake/decision_log.py:87-93 | attaching r1 and then any r2 leaves the same file as attaching r2 alone if and only if there is no such entry, or r1 contains no end of an entry and removing the blocks from its block leaves only newlines |
| LogReplacing.RemovableIsClosed | packages/data-lake/data_lake/decision_log.py:180-192 | for a reflection that opens no block the condition is that neither closing delimiter stands in it |
| LogReplacing.NestedBlockIsRemovable | packages/data-lake/data_lake/decision_log.py:180-192 | a reflection that cannot be read back and is replaced all the same |
| LogReplacing.AttachTwiceCanFail | packages/data-lake/data_lake/decision_log.py:180-198 | in every log a reflection equal to either closing delimiter is not replaced by a later one |
| DecisionLog.ReadTextIsExact | packages/data-lake/data_lake/decision_log.py:82-82 | a file is read as it was written if and only if it holds no carriage return |
| DecisionLog.DecisionLog.Append | packages/data-lake/data_lake/decision_log.py:77-85 | the agent's file as it is read, or a header, is followed by the printed entry; other files are unchanged |
| DecisionLog.DecisionLog.AttachReflection | packages/data-lake/data_lake/decision_log.py:87-106 | the file is rewritten if and only if the entry was found |
| DecisionLog.DecisionLog.IterEntries | packages/data-lake/data_lake/decision_log.py:108-116 | the entries of the agent's file, none without a file |
| DecisionLog.LogsTellTheHistory | packages/data-lake/data_lake/decision_log.py:1-15 | after every run of appends and reflections with clean fields, reading an agent's log gives its advice in order, each with the last reflection attached to it |
| DecisionLog.AttachFinds | packages/data-lake/data_lake/decision_log.py:87-106 | after every such run, attaching succeeds exactly when the agent has an advice of that id |
| DecisionLog.LineEndsAreRead | packages/data-lake/data_lake/decision_log.py:82-82 | a carriage return, alone or with a newline, is read as one newline |
| LogBody.LogsTellTheAdvice | packages/data-lake/data_lake/decision_log.py:144-215 | after every such run the body of each entry starts with the title line of its advice, has a line for each evidence URL, and contains its thesis |
| LogBody.HeaderNamesAgent | packages/data-lake/data_lake/decision_log.py:136-141 | the title of a log names its agent |
| SseSplitter.ParseSseChunk | apps/dashboard/src/lib/sse.ts:47-56 | the loop over the lines keeps the last event name and all data lines, and yields nothing without data |
| SseSplitter.ParsedIsExact | apps/dashboard/src/lib/sse.ts:47-56 | the data of a chunk are the trimmed values of its data lines, the event that of its last event line, and without a data line there is no token |
| SseSplitter.OtherLinesAreIgnored | apps/dashboard/src/lib/sse.ts:50-53 | a line that starts with neither field changes no token |
| SseSplitter.Drain | apps/dashboard/src/lib/sse.ts:36-41 | the inner loop yields the tokens of all complete chunks and keeps the rest |
| SseSplitter.StreamChat | apps/dashboard/src/lib/sse.ts:29-44 | for every way of cutting the stream the reader yields the tokens of the whole text and keeps a buffer without a break |
| SseSplitter.SplitAppend | apps/dashboard/src/lib/sse.ts:33-43 | splitting a text can stop anywhere and go on from what was left |
| SseSplitter.SplitIsExact | apps/dashboard/src/lib/sse.ts:36-38 | chunks, breaks and rest are the whole text, the rest holds no break, and no break starts earlier than behind its chunk |
| SseSplitter.SplitIsUnique | apps/dashboard/src/lib/sse.ts:36-38 | nothing else splits the text like that |
| SseSplitter.TokensOnlyGrow | apps/dashboard/src/lib/sse.ts:36-41 | more text adds tokens behind those already yielded |
| SseSplitter.ParsedIsReadable | apps/dashboard/src/lib/sse.ts:47-56 | every token that can be read has a trimmed event and trimmed data lines |
| SseSplitter.RoundTripIsExact | apps/dashboard/src/lib/sse.ts:47-56 | a serialized token is read back if and only if its event is one trimmed line and each data line is trimmed |
| SseSplitter.StreamRoundTrip | apps/dashboard/src/lib/sse.ts:33-43 | a stream of serialized tokens gives back those tokens if and only if every line of every token is trimmed, and then leaves nothing in the buffer |
| SseSplitter.NothingIsComplete | apps/dashboard/src/lib/sse.ts:36-37 | no chunk is complete if and only if the text contains no break |
| SseSplitter.CarriageReturnsHideBreaks | apps/dashboard/src/lib/sse.ts:36-37 | a stream whose newlines all follow a carriage return yields nothing |
| TokenBucket.Bucket.constructor | packages/llm-client/llm_client/rate_limiter.py:87-91 | a cap of zero is no cap |
| TokenBucket.Bucket.Acquire | packages/llm-client/llm_client/rate_limiter.py:93-106 | without a free permit the call waits and changes nothing; with a rate of zero it fails and gives its permit back; otherwise the wait and the next start that are handed out, and that a cancelled sleeper leaves the permits as they were |
| TokenBucket.Bucket.Release | packages/llm-client/llm_client/rate_limiter.py:108-110 | one permit comes back, the schedule stays |
| TokenBucket.Spacing | packages/llm-client/llm_client/rate_limiter.py:97-102 | the scheduled starts of calls i and j are at least (j - i)/rps apart |
| TokenBucket.IntervalBound | packages/llm-client/llm_client/rate_limiter.py:97-102 | an interval of length T holds at most floor(T * rps) + 1 scheduled starts |
| TokenBucket.ScheduleIsLeast | packages/llm-client/llm_client/rate_limiter.py:97-102 | the schedule respects arrivals and spacing, and every other schedule that does is pointwise no earlier |
| TokenBucket.PermitsConserved | packages/llm-client/llm_client/rate_limiter.py:93-110 | in every interleaving, cancellations included, permits and holders add up to the cap |
| TokenBucket.CancelledPlacesAreSpent | packages/llm-client/llm_client/rate_limiter.py:97-106 | the schedule depends on the arrivals alone: a cancelled wait keeps its place |
| SlidingWindow.RateLimiter.Acquire | packages/notifier/notifier/ratelimit.py:54-66 | pruning in place and appending, per key; a key without a limit and a capacity of zero let everything in |
| SlidingWindow.PerAgentRateLimit.Allow | apps/orchestrator/orchestrator/merge/advice_merger.py:39-47 | the list is replaced by its part inside the window, plus the event if it is let in |
| SlidingWindow.DequeIsExact | packages/notifier/notifier/ratelimit.py:60-66 | on every non-decreasing clock the deque holds the accepted events inside the window and decides as a count over the full history |
| SlidingWindow.ListIsExact | apps/orchestrator/orchestrator/merge/advice_merger.py:39-47 | the list-filter limiter decides as the same count |
| SlidingWindow.LimitersAgree | packages/notifier/notifier/ratelimit.py:54-66 | with equal capacity and a window of 60 s both make the same decisions; with capacity zero the list lets nothing in |
| SlidingWindow.LetInIsAccepted | packages/notifier/notifier/ratelimit.py:60-66 | the events the deque lets in are those the full count accepts |
| SlidingWindow.WindowBound | packages/notifier/notifier/ratelimit.py:39-41 | any closed interval of the window's length holds at most `capacity` accepted events |
| SlidingWindow.DequeBound | packages/notifier/notifier/ratelimit.py:39-41 | and at most `capacity` of those the deque let in |
| SlotSemaphore.SemaphoreBackend.Set | apps/orchestrator/orchestrator/execute/concurrency.py:28-35 | SET NX with a time to live: succeeds exactly when no live key is there |
| SlotSemaphore.SemaphoreBackend.Delete | apps/orchestrator/orchestrator/execute/concurrency.py:37-37 | the key is gone, whoever set it |
| SlotSemaphore.ScanSlots | apps/orchestrator/orchestrator/execute/concurrency.py:104-108 | whatever other callers write between the tries, a pass takes the first slot that is free when it is tried, or met a held key at every slot |
| SlotSemaphore.ClaimSlot | apps/orchestrator/orchestrator/execute/concurrency.py:94-114 | with other writers at every await, a slot is claimed only from a free key; a timeout comes only behind a full pass of held slots that ends past the deadline, and at the first such pass |
| SlotSemaphore.SlotsAreExact | apps/orchestrator/orchestrator/execute/concurrency.py:70-114 | in every interleaving of claims, releases, crashes and expiry every holder owns a live key at all times if and only if none overstays the time to live, and then there are never more holders than slots |
| SlotSemaphore.FromStart | apps/orchestrator/orchestrator/execute/concurrency.py:70-114 | the same for every run from an empty store |
| SlotSemaphore.OverstayingBreaksTheCap | apps/orchestrator/orchestrator/execute/concurrency.py:88-91 | for every positive capacity, a run in which one holder overstays and at whose end nobody does, with more holders than slots |
| CostMeter.InMemorySpendStore.TotalSpend | packages/llm-client/llm_client/cost_meter.py:69-74 | in any dictionary order the sum is that of all recorded costs inside the window |
| CostMeter.InMemorySpendStore.Record | packages/llm-client/llm_client/cost_meter.py:76-78 | the row of (day, tier, fallback) grows by the cost, and the table stays that of the full log |
| CostMeter.CostMeter.ReadState | packages/llm-client/llm_client/cost_meter.py:103-109 | reading the state turns open into half-open exactly when the cooldown is over, and leaves the opening time |
| CostMeter.CostMeter.Allow | packages/llm-client/llm_client/cost_meter.py:111-128 | allowed exactly when the breaker is not open, or its cooldown is over, and the 30-day sum of the full log is below the cap, and for a fallback call the fallback sum too; a reached cap opens the breaker now |
| CostMeter.CostMeter.OpenBreaker | packages/llm-client/llm_client/cost_meter.py:144-146 | open from now |
| CostMeter.CostMeter.Reset | packages/llm-client/llm_client/cost_meter.py:148-151 | closed, whatever the spend |
| CostMeter.CostMeter.Record | packages/llm-client/llm_client/cost_meter.py:136-142 | one more record in the log |
| CostMeter.SumInAnyOrder | packages/llm-client/llm_client/cost_meter.py:69-74 | the sum over the rows does not depend on the order they are taken in |
| CostMeter.SumIsThatOfItsRecords | packages/llm-client/llm_client/cost_meter.py:69-74 | the sum adds up, record by record, the costs of those from the first day of the window on, fallback ones only when asked for |
| CostMeter.TableSumsToLog | packages/llm-client/llm_client/cost_meter.py:66-78 | the aggregated table always sums to the full record log, for every window and both ways of counting |
| CostMeter.GateInOnePiece | packages/llm-client/llm_client/cost_meter.py:111-128 | the first gate of the interleaved chats, when nothing interrupts it, is `allow()`, whatever other chats there are |
| CostMeter.FallbackGateInOnePiece | packages/llm-client/llm_client/cost_meter.py:111-128 | the gate in front of the fallback provider, with its two sums, is `allow(fallback=True)` |
| CostMeter.SpendBound | packages/llm-client/llm_client/router.py:247-331 | with at most k chats let through, from the sum they read on, and not recorded, each costing at most c, rolling spend stays below cap + k * c at every moment of every interleaving, also where a sum is old when the gate decides on it, and fallback spend likewise |
| CostMeter.QueueOvershoots | packages/llm-client/llm_client/router.py:247-260 | k counts the chats queued at the caller's semaphore: with one permit n full-price chats follow one another past the gate from any spend below the cap, for every n |
| CostMeter.SpendBoundIsTight | packages/llm-client/llm_client/router.py:247-331 | for every cap, load k, price c and margin a run that meets what the bound asks for spends more than cap + k * c less the margin |
| SpendCooldown.EntranceIsExact | packages/llm-client/llm_client/cost_meter.py:103-115 | a chat gets to the sums exactly when the breaker is not open or its cooldown is over |
| SpendCooldown.RefusalShutsTheGates | packages/llm-client/llm_client/cost_meter.py:103-146 | after a chat opened the breaker at t no chat gets in by either gate before t plus the cooldown, in any interleaving without a reset |
| SpendCooldown.CooldownEnds | packages/llm-client/llm_client/cost_meter.py:103-109 | a chat that asks a cooldown after the last refusal, or later, gets in |
| SpendCooldown.ResetLetsIn | packages/llm-client/llm_client/cost_meter.py:148-151 | after a reset, and no new refusal, every chat gets in |
| RiskShape.CheckCorrelation | apps/agent_quant/quant/risk.py:77-85 | the loop finds a pair above the cap exactly when there is one |
| RiskShape.Consider | apps/agent_quant/quant/risk.py:46-57 | given totals that match the accepted trades, a candidate is taken exactly when adding it breaks no limit |
| RiskShape.Shape | apps/agent_quant/quant/risk.py:31-61 | the loop returns the greedy choice over the ranked candidates; every trade has its size and its bands, and the more volatile of two never the larger weight |
| RiskShape.TradesAreWellMade | apps/agent_quant/quant/risk.py:64-107 | for every trade taken weight times volatility is a tenth of the target in percent, or less at the position limit, a known dollar volume is ten times its value, and entry, target and stop stand at their distances from the last close |
| RiskShape.VolatileTradesAreSmaller | apps/agent_quant/quant/risk.py:64-67 | the more volatile of two trades never has the larger weight |
| RiskShape.RhoIsLookedUp | apps/agent_quant/quant/risk.py:80-84 | the correlation is the one stored under the two tickers in lexicographic order, or none |
| RiskShape.RankedSorts | apps/agent_quant/quant/risk.py:45-45 | ranking keeps the candidates, with repetitions, puts the strongest signal first and keeps the order of equals |
| RiskShape.RhoSymmetric | apps/agent_quant/quant/risk.py:81-82 | the correlation looked up for a pair does not depend on its order |
| RiskShape.GreedyWithinLimits | apps/agent_quant/quant/risk.py:45-61 | the result meets the position, liquidity, pairwise-correlation, sector and region limits |
| RiskShape.GreedyIsMaximal | apps/agent_quant/quant/risk.py:45-61 | no candidate that was not taken can be added to the final set |
| RiskShape.TradesAreTaken | apps/agent_quant/quant/risk.py:45-61 | the trades are the taken candidates, in order, at their capped weight and with their bands |
| RiskShape.ShapedBandsAreValid | apps/agent_quant/quant/risk.py:88-107 | the bands of a trade pass the rules for advice if and only if the volatility figure is positive |
| Positions.InMemoryPositionStore.Upsert | apps/agent_backtest/backtest/opener.py:31-34 | one key is written, and whether it was new |
| Positions.OpenPosition | apps/agent_backtest/backtest/opener.py:46-80 | a replayed advice gives back the position it has and changes nothing; a new one is opened on the terms of the advice, now, without marks, at the midpoint slipped against the trade; a flat one is refused |
| Positions.TickPosition | apps/agent_backtest/backtest/mtm/scheduler.py:32-47 | one open position is marked and, if an exit is due, closed at the price of its reason with its profit |
| Positions.TickNext | apps/agent_backtest/backtest/mtm/scheduler.py:32-47 | one pass of the loop adds one position to those the tick has got to |
| Positions.Tick | apps/agent_backtest/backtest/mtm/scheduler.py:19-48 | in any order of the open positions each one the tick gets to is marked or closed independently; without an exception of the callback these are all, and the count is the number that closed; after one, the others are left as they were |
| Positions.LossBoundIsExact | apps/agent_backtest/backtest/exits.py:10-45 | for a valid open position, at every mark the loss is at most one unit of risk, with equality exactly on a stop exit, if and only if the fill is on the risk side of the stop |
| Positions.OpenedOnRiskSide | apps/agent_backtest/backtest/slippage.py:45-53 | valid advice with non-negative midpoint and volatility is filled on the risk side |
| Positions.ShapedTradeOnRiskSide | apps/agent_quant/quant/risk.py:88-107 | so is every trade shaped by the risk allocator from a positive volatility figure |
| Positions.NegativeMidpointBreaksTheBound | packages/schema/schema/advice.py:95-124 | a valid long advice whose stop exit is booked as a gain |
| Positions.RunsBoundLosses | apps/agent_backtest/backtest/mtm/scheduler.py:27-48 | over every run of opens and ticks from valid advice, ticks cut short included, each closed position has lost at most one unit of risk, with equality exactly on a stop exit |
| Positions.RunsAreTruthful | apps/agent_backtest/backtest/exits.py:10-45 | over every run: an open position was never marked at its stop or target nor after expiry; a closed one was closed at the first such mark, a target at the near edge, a stop at the stop, an expiry at the market, with profit the signed distance from the fill |
| Positions.MarksAreFound | apps/agent_backtest/backtest/mtm/scheduler.py:27-34 | over every run a position has one mark for each tick that got to it with a price while it was open, in order |
| Positions.SlippageGrows | apps/agent_backtest/backtest/slippage.py:19-33 | ten basis points more off the liquid venues, five more above half a percent of a known volume, a twentieth of the volatility |
| Positions.PositionsAreKept | apps/agent_backtest/backtest/opener.py:53-55 | whatever follows, a position keeps its terms, a closed one never changes, and a replay opens no second one |
| FilingChunker.TailWithOverlap | apps/agent_fundamental/fund/filings/chunker.py:79-88 | the backward loop returns the suffix that the fit function describes |
| FilingChunker.CountTokens | apps/agent_fundamental/fund/filings/chunker.py:71-71 | the recomputed counter is the sum over the sentences |
| FilingChunker.ApproxTokensRounds | apps/agent_fundamental/fund/filings/chunker.py:91-93 | a token count is one more than 1.3 times the words, rounded down |
| FilingChunker.ChunkSection | apps/agent_fundamental/fund/filings/chunker.py:58-76 | the loop, with its counter equal to the sum throughout, builds the chunks of the recursive definition |
| FilingChunker.TailIsLongest | apps/agent_fundamental/fund/filings/chunker.py:79-88 | the overlap fits its budget and no longer suffix does |
| FilingChunker.OverlapsDropAway | apps/agent_fundamental/fund/filings/chunker.py:58-76 | dropping the overlaps gives back the sentence list |
| FilingChunker.ChunksOverlap | apps/agent_fundamental/fund/filings/chunker.py:67-73 | each chunk after the first starts with the longest suffix of the one before that fits, and goes on with a sentence that no longer fitted there |
| FilingChunker.ChunksAreRanges | apps/agent_fundamental/fund/filings/chunker.py:58-76 | every chunk is a contiguous, non-empty range of the sentences |
| FilingChunker.ChunksAreBounded | apps/agent_fundamental/fund/filings/chunker.py:58-93 | a chunk's token count, rounded once, is at most the target or the overlap plus the largest sentence |
| FilingChunker.TargetKept | apps/agent_fundamental/fund/filings/chunker.py:65-73 | a chunk with more than one sentence besides its overlap keeps to the target |
| FilingChunker.FirstExceeds | apps/agent_fundamental/fund/filings/chunker.py:65-73 | the first chunk exceeds the target if and only if its first sentence does |
| FilingChunker.LaterExceeds | apps/agent_fundamental/fund/filings/chunker.py:65-73 | a later chunk exceeds the target if and only if its overlap and its first new sentence together do |
| FilingChunker.TargetCanBeExceeded | apps/agent_fundamental/fund/filings/chunker.py:65-73 | an input where every sentence fits the target and a chunk exceeds it |

## Left out

- Node outputs and times and the shared state of the DAG runner; whether the function of a node
  returns is an input for each node, since none runs twice. Which nodes a condition returns
  is an arbitrary choice, and the clock an arbitrary function. A condition function that raises
  ends `execute` with its exception; that outcome is not modelled.
- The SLA wrapper around nodes: cancellation enters only as a step of the circuit breaker.
- The hook of the circuit breaker raising an exception.
- SHA-256, JSON canonicalisation, UUIDs and ULIDs: a collision-free digest of previous digest
  and payload whose values are never the all-zero string, and fresh ids. In the ledger the
  previous hash is a separate argument of the digest, where the code concatenates the bytes.
- The Postgres form of the audit log; aliasing of the entries that `append` hands out.
- FOR UPDATE in the ledger: appenders may read the same head, so the model has more
  interleavings than the database allows.
- DecisionLog.LogsTellTheHistory: a file is named by its slug. Two slugs that name one file, such
  as "x" and "./x", are two files here, so the theorem is about slugs with different paths. It
  asks for no carriage return in what is printed, because reading turns it into a newline.
- DecisionLog.DecisionLog.Append: decoding, the atomic replace and the per-agent lock are not
  modelled; a file is its text and one operation is one step.
- Non-ASCII details of strings: characters are Unicode scalar values, where the dashboard counts
  UTF-16 units; decoding of bytes in the stream is not modelled.
- Fetching the stream, its HTTP status and aborts.
- In-memory semaphore backend: it ignores the time to live; the contract modelled is SET NX with
  expiry. In SlotSemaphore.ClaimSlot other writers may do anything to the store; that holders
  exclude each other is proved of the event system, where one SET NX is one step.
- CostMeter.SpendBound: a sum is that of the table at one moment, over the window of that moment.
- The cache, telemetry, tiers' prices, `embed` and `chat_or_skip` of the router, and its rate
  limiter, which only delays a chat between the gate and its record.
- TokenBucket.Spacing: the rate is positive; with a rate of zero no call gets a place.
- `reset` of the limiters, the environment overrides of their limits, and the lock around a
  deque; one `acquire` is one step.
- `soft_breach`: one comparison.
- Candidates of `shape` are real-valued: rounding, infinities and NaN of floats are not modelled,
  here or in prices, spend and clocks.
- Positions.TickPosition: the code changes the position object that the store already holds and
  stores it again only when it closes; the model writes the changed value back on every mark.
  What the `on_close` callback does, other than raise, and ticks that overlap are not modelled.
- Item and sentence splitting of filings by regular expressions, and the final filter for blank
  chunks: the chunker starts from the sentence list with word counts.
- HTTP routes, NATS, planner and board text, translation, sentiment, YAML loading of personas and
  the admin services: plumbing around the parts modelled here.
