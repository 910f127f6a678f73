# Virtual Engineer: a verified model of its stateful core

Virtual Engineer runs coding agents on tasks and serves an admin API. Most of it moves data between services; this
project models the parts that decide something by themselves, in Dafny 4.11, and proves what they promise. Verify it
with `dafny verify dfyconfig.toml`.

Code that changes state step by step is a class or a method here, proved equal to a specification function; the
guarantees are lemmas about those functions, over every input and over every run. Time, hashing, JSON parsing, the
database and git are parameters: the modules say which.

**Live log stream.** `AgentStderrPipeline` cuts raw stderr chunks into lines and events, `AgentEventBus` keeps the newest
500 events of each task, `ReplayCandidates` yields history newest first from a resumable generator, `LogStreamReplay`
picks the bounded, de-duplicated replay, and `AdminStreamRoutes` is one task-scoped connection interleaved with the bus.
`LogStreamReplayProperties`, `AdminStreamProperties`, `AdminStreamOrder` and `AdminStreamFailure` hold the results: the
lazy selection equals an eager one, its accounting conserves records, and the hand-off from replay to live loses nothing
in any interleaving, up to the first entry that cannot be printed. `LogStreamHistory`, `LogStreamIdentity`,
`AdminStreamContents`, `AdminStreamArrivals`, `AdminStreamTurns` and `AgentStderrPublishing` say the same of the events,
lines and fields themselves: every event arrives as itself, none of another task does, and a stderr line becomes exactly
the event it parses to or its plain one.

**Single-flight reconcile.** `StreamReconcile` is the pending flag, the in-flight promise and the restart in `finally`.

**Login rate limiter.** `LoginRateLimiter` and `LoginRateLimiterProperties`: window, backoff, cap, sweep and audit mark;
`LoginHistory` derives every answer from the key's own failures alone.

**Commits.** `CommitMessages` reads Change-Ids (the pattern as an automaton, proved sound and complete for it),
`CommitCleanup` is git's clean-up of a message, `CommitUtils` injects ids, `CommitUtilsProperties` proves injection
conservative, and total and idempotent exactly when the ids and the footer used can be read back. `CommitFooters` says
which footers can, `DerivedChangeIds` which derived ids collide. `CommitBodies`, `CommitTrailers` and `CommitInjection`
write messages, trailers and the whole injection out as texts. `RepoGrouping` splits file lists by repository.

**Aggregations, exports and files.** `AdminTaskRoutes` and `AdminTaskProperties` (task de-duplication), `TimeBins`
(throughput windows), `ModelUsage` (usage per model), `Csv` (printing and an RFC 4180 reader), `AuditStore` and
`AdminAuditRoutes` (snapshot export), `AgentEngines`, `AgentEngineSelection` and `AgentEngineEffects` (engine lists and
their lifecycle),
`AdminRouter` (the permission gate against dispatch). `Seqs` and `Text` hold shared vocabulary.

## Where the code does less than it says

Each of these is a lemma that gives the inputs showing it, next to the exact condition under which the promise does hold.

- A resume cursor naming an event published after the listener attached makes the client receive events out of order
  (`ResumeInsideWindowReorders`; exactly when: `InOrderExactly`). The cursor was sent with the request, before that
  event existed, so an honest client meets this only when the event repeats an earlier record and with it its id.
- A buffered event that cannot be printed, its payload holding a big integer for one, makes the handler fail before the
  stream is live, and nothing later is written (`UnprintableEventEndsHandOff`; exactly when: `GoesLiveByBuffer`, and
  `GoesLiveExactly` for any cycles). Held back but not replayed, as after a cleared buffer, it loses what was held back
  after it (exactly: `DrainExactly`).
- A listener or `onEvent` handler that throws makes one stderr line both an event and a plain line
  (`ThrowingListenerDoublesALine`), and a listener that throws on a plain line's event loses the rest of its chunk, so that
  the result depends on how the output was cut (`ThrowingListenerDropsALine`; exactly when: `ExactlyOneRecordPerLine`,
  `EveryLineHandledExactly` and, for the cutting, `ChunkingInvariance`).
- Two equal events of a stream make a persisted one count as buffered although it is not (`EqualEventsMiscount`; exactly
  when: `CopiesAreExact` and `EachRecordCountsOnce`).
- A reconcile requested between the loop's end and its `finally` is served, but by a later pass than the promise it was
  given waits for (`ExitWindowIsReachable`; exactly when: `FulfilledMeansServed`).
- A prior Change-Id stored as an empty or malformed text leaves a commit without one
  (`EmptyPriorIdLeavesCommitWithout`; exactly when: `InjectionIsTotalExactly`).
- A footer line that ends in a blank is added again on every run, as git strips the blank and the footer is not found
  (`FooterEndingInBlankIsRepeated`, and `InjectionRepeatsFooter` for all such footers; exactly when:
  `FooterStaysExactly` and, for whole injections, `OneLineInjectionIsIdempotentExactly`).
- Rewriting commits forgets which repositories they belong to (`RewriteForgetsRepository`; exactly when:
  `KeysSurviveExactly`).
- Repository keys of which one continues the other with a colon and a number can make two derived Change-Ids collide
  (`ColonInRepoKeyCollides`; exactly when: `RepositoriesCollideExactly`).
- A comment in an engine list ends at any line terminator, a lone carriage return for one, so what follows it on the same
  line is read (`CommentEndsAtTerminator`; otherwise: `CommentNamesNothing`).
- The formula guard of the CSV cells cannot tell a guarded formula from the same text already carrying an apostrophe
  (`GuardConfusesExactly`).
- An integration created while recording its engine fails stays outside the selection, and no boot repairs that
  (`UnrecordedCreationIsNotRepaired`; exactly when: `CreationExactly`).

## Model

| member | source | states |
|---|---|---|
| AgentEventBus.EventBus.PushToTaskBuffer | src/agents/agentEventBus.ts:33-43 | appends to the task's buffer and evicts the oldest beyond 500; other tasks' buffers do not change |
| AgentEventBus.EventBus.GetTaskEventBuffer | src/agents/agentEventBus.ts:23-25 | the task's buffer, empty if there is none |
| AgentEventBus.EventBus.ClearTaskEventBuffer | src/agents/agentEventBus.ts:28-30 | forgets exactly that task's buffer |
| AgentEventBus.BufferHoldsNewest | src/agents/agentEventBus.ts:15-43 | after pushes of any interleaved tasks each buffer is the newest 500 of what it held followed by its own events in order |
| AgentStderrPipeline.Pipeline.ProcessLine | src/agents/agentStderrPipeline.ts:38-80 | a line becomes an event, a plain line or, when a handler throws, both; the bus is pushed exactly what is published; an exception leaves exactly when a listener throws on a plain line's event |
| AgentStderrPipeline.Pipeline.ConsumeChunk | src/agents/agentStderrPipeline.ts:84-91 | the buffer takes the rest of the chunk first, then the complete lines are processed in order up to and including the first that throws |
| AgentStderrPipeline.Pipeline.Flush | src/agents/agentStderrPipeline.ts:92-98 | processes the rest as a last line, and empties the buffer unless that throws |
| AgentStderrPipeline.ChunkingInvariance | src/agents/agentStderrPipeline.ts:84-91 | every way of cutting a text into chunks, also between CR and LF, leaves the state that consuming it whole leaves, if and only if no non-empty line of it follows one that throws |
| AgentStderrPipeline.RunHandlesLinesInOrder | src/agents/agentStderrPipeline.ts:38-98 | whatever the chunks, the lines handled turn into events, plain lines and published events in order and in full, and the buffer ends empty unless the last line throws |
| AgentStderrPipeline.EveryLineHandledExactly | src/agents/agentStderrPipeline.ts:84-98 | a run handles every non-empty line of its text, in order, if and only if in no chunk one follows a line that throws |
| AgentStderrPipeline.ExactlyOneRecordPerLine | src/agents/agentStderrPipeline.ts:38-98 | every non-empty line is handled and becomes exactly one event or plain line, if and only if no chunk drops a line after one that throws and no line's own handlers throw |
| AgentStderrPipeline.ThrowingListenerDoublesALine | src/agents/agentStderrPipeline.ts:55-66 | a listener throwing on one structured event makes its line an event and a plain line |
| AgentStderrPipeline.ThrowingListenerDropsALine | src/agents/agentStderrPipeline.ts:69-91 | a listener throwing on a plain line's event loses the next line of the same chunk, and keeps it when it comes in a chunk of its own |
| AgentStderrPublishing.RunShowsLines | src/agents/agentStderrPipeline.ts:38-98 | whatever the chunks and whatever throws, each handled line gives its parsed event unless `onEvent` threw on it, and its plain event if it does not parse or a handler threw; log and events likewise |
| AgentStderrPublishing.PublishedExactly | src/agents/agentStderrPipeline.ts:43-75 | an event is published over a run if and only if some handled line parses to it and `onEvent` did not throw, or it is the plain event of a line that does not parse or whose handlers threw |
| AgentStderrPublishing.EveryLineIsPublished | src/agents/agentStderrPipeline.ts:38-98 | when nothing throws every non-empty line is published once, in order, as the event it parses to or else as its plain event; the log holds the others |
| AgentStderrPublishing.BufferHoldsPublished | src/agents/agentStderrPipeline.ts:57-75 | after a run each task's buffer is the newest 500 of what it held followed by what the run published for it |
| AgentStderrPublishing.AbortsExactly | src/agents/agentStderrPipeline.ts:64-75 | an exception leaves the pipeline if and only if a listener throws on the plain event of a line that does not parse or whose handlers threw |
| AgentStderrPublishing.ReachedExactly | src/agents/agentStderrPipeline.ts:84-91 | a chunk's lines are processed up to and including the first such line |
| ReplayCandidates.ScanStep | src/admin/logStreamReplay.ts:248-252 | one step of the backwards scan takes exactly the newest remaining non-blank line |
| ReplayCandidates.ScanStart | src/admin/logStreamReplay.ts:244-247 | the scan yields, in reverse, the lines of the trimmed log split at line breaks without the blank ones |
| Text.CutAtBreak | src/agents/agentStderrPipeline.ts:86 | a text is cut at a line feed, or at a carriage return and line feed, which then both go |
| Text.TrimExactly | src/admin/logStreamReplay.ts:245 | trimming takes the whitespace off both ends and nothing else |
| ReplayCandidates.CandidateGenerator.Next | src/admin/logStreamReplay.ts:160-186 | yields the candidates one by one, newest first, skipping nothing, and ends only after the last |
| LogStreamReplay.EarlyExitSound | src/admin/logStreamReplay.ts:79-89 | stopping at either bound loses nothing: the entries kept are those of the whole candidate list |
| LogStreamReplay.BufferedCopyPositions | src/admin/logStreamReplay.ts:206-228 | the positions among the cycle's last events whose identity occurs in the buffer |
| LogStreamReplay.CopiesAreExact | src/admin/logStreamReplay.ts:199-228 | with the buffer the end of the stream persisted events come from, the copies found are the persisted events still buffered, if and only if none that left the buffer has the identity of one held there |
| LogStreamReplay.DistinctNeverMistaken | src/admin/logStreamReplay.ts:199-228 | with distinct identities in the stream no event is mistaken for a buffered one |
| LogStreamIdentity.IdentitiesAgreeExactly | src/admin/logStreamReplay.ts:230-241 | identities agree if and only if cycle, timestamp, type and payload text do, an absent payload counting as empty, timestamp and type holding no separator |
| LogStreamIdentity.CopiesAgreeExactly | src/admin/logStreamReplay.ts:206-228 | a persisted event counts as a copy if and only if it is among as many last ones as are buffered, serializes, and a buffered one agrees with it in those fields |
| LogStreamReplay.CountHistoryRecords | src/admin/logStreamReplay.ts:189-197 | the number of persisted events and non-blank log lines |
| LogStreamReplay.HistoryCount | src/admin/logStreamReplay.ts:172-197 | the candidates from history are that number less the copies left out |
| LogStreamReplay.CollectNewest | src/admin/logStreamReplay.ts:74-89 | keeps the first entry per key of the newest 1000 candidates, at most 500, and reports how many were read and whether they ran out |
| LogStreamReplay.SelectLogStreamReplay | src/admin/logStreamReplay.ts:62-99 | entries and summary equal the reference replay for every history, buffer and cursor |
| LogStreamReplayProperties.CandidatesReversed | src/admin/logStreamReplay.ts:49-60 | reversed, the candidates are history cycle by cycle, log lines before events, then the buffer; only what follows the cursor when resumed |
| LogStreamReplayProperties.LazyEqualsEager | src/admin/logStreamReplay.ts:62-99 | the replay is: all candidates oldest first, the newest 1000, the last entry per key, the last 500 |
| LogStreamReplayProperties.ReplayedOnce | src/admin/logStreamReplay.ts:86-88 | no key occurs twice in a replay |
| LogStreamReplayProperties.ReplayEndsWithBuffer | src/admin/logStreamReplay.ts:166-171 | a replay ends with every buffered entry after its cursor, once per key, in publication order; a resumed one holds nothing else |
| LogStreamReplayProperties.FreshReplayAccounts | src/admin/logStreamReplay.ts:91-98 | examined and omitted add up to the distinct records, the clamp at zero never acts, a resumed replay drains the buffer after its cursor |
| LogStreamReplayProperties.EachRecordCountsOnce | src/admin/logStreamReplay.ts:38-39 | with the newest cycle persisted from the stream, each event a fresh replay can see counts once however many places hold it, if and only if no persisted event is mistaken for a buffered one |
| LogStreamReplayProperties.EqualEventsMiscount | src/admin/logStreamReplay.ts:199-228 | two equal events make the copy positions differ from the persisted events still buffered |
| LogStreamHistory.ReplayInFull | src/admin/logStreamReplay.ts:62-186 | the replay written out: the buffered events after the one record the cursor names, else each cycle's log lines and events and then the buffer; newest 1000, last of each key, newest 500 |
| LogStreamHistory.ResumesExactly | src/admin/logStreamReplay.ts:70-72 | a cursor resumes if and only if it is the id of exactly one buffered event |
| AdminStreamRoutes.LogStream.EventListener | src/admin/adminStreamRoutes.ts:65-76 | ignores other tasks and closed connections, queues the newest 500 before the replay, writes afterwards |
| AdminStreamRoutes.LogStream.WriteEntry | src/admin/adminStreamRoutes.ts:136-146 | writes an entry unless its key is among the last 5000 taken; one that does not print is remembered and throws |
| AdminStreamRoutes.LogStream.CyclesArrived | src/admin/adminStreamRoutes.ts:116-176 | notice, replay, drain and switch to live in one turn, or nothing when closed; an entry that throws ends it there, before or after the switch |
| AdminStreamRoutes.LogStream.Cleanup | src/admin/adminStreamRoutes.ts:59-64 | closes the connection and changes nothing else |
| AdminStreamRoutes.PublishEvent | src/agents/agentStderrPipeline.ts:57-58 | pushing and then emitting is one step of the interleaved system; it throws when the entry does not print |
| AdminStreamProperties.NoKeyTwiceInMemory | src/admin/adminStreamRoutes.ts:134-146 | in every run two entries taken with one key are more than 5000 apart |
| AdminStreamProperties.WaitingHoldsNewest | src/admin/adminStreamRoutes.ts:69-74 | while the cycles are awaited the queue is the newest 500 events published since attaching |
| AdminStreamProperties.StreamingWritesAll | src/admin/adminStreamRoutes.ts:165-171 | while live every published event of the task is offered for writing in order |
| AdminStreamProperties.GoesLiveExactly | src/admin/adminStreamRoutes.ts:148-165 | the stream goes live if and only if every replayed entry, but one carrying the notice's own key, prints; otherwise the handler fails |
| AdminStreamProperties.SilentAfterFailure | src/admin/adminStreamRoutes.ts:65-76 | after that failure nothing more is taken for writing in any run |
| AdminStreamProperties.DrainExactly | src/admin/adminStreamRoutes.ts:148-175 | once live a client has received exactly the keys of the notice, the replay and what was held back before the first entry that throws; the queue is emptied if and only if none does |
| AdminStreamProperties.GaplessHandOff | src/admin/adminStreamRoutes.ts:108-175 | in every interleaving in which the stream goes live a connected client has received, of the newest 500 events published between attach and replay, each before the first that throws, so all when all print, and every later one that prints |
| AdminStreamArrivals.EventsArrive | src/admin/adminStreamRoutes.ts:108-175 | with keys that tell contents apart, each of those events has arrived as an entry saying exactly that event, under its own key and id |
| AdminStreamOrder.ReceivedInOrder | src/admin/adminStreamRoutes.ts:108-175 | over whole runs the notice, older history, the buffered events from the cursor on, those passed over and every later one, each saying what was published |
| AdminStreamContents.EverythingIsKeyed | src/admin/logStreamReplay.ts:107-151 | in every run each entry taken has the key of what it says and the id of that key |
| AdminStreamTurns.WrittenExactly | src/admin/adminStreamRoutes.ts:136-146 | an entry is taken if and only if none of the last 5000 taken has its key |
| AdminStreamTurns.DeliveredExactly | src/admin/adminStreamRoutes.ts:65-76 | what each published event does to a connection, closed, waiting or live |
| AdminStreamTurns.TurnsExactly | src/admin/adminStreamRoutes.ts:59-128 | what clearing a buffer, a failed read of the cycles, an ended socket and a closed connection do |
| AdminStreamTurns.ClosedIsFinal | src/admin/adminStreamRoutes.ts:59-66 | a closed connection takes nothing more in any run |
| AdminStreamTurns.HeldNeedsSocket | src/admin/adminStreamRoutes.ts:165-175 | on an ended socket what was held back is dropped |
| AdminStreamTurns.OnlyThisTask | src/admin/adminStreamRoutes.ts:65-68 | in every run a connection takes only events of its own task and those persisted with the cycles it was given |
| AdminStreamTurns.NoticeExactly | src/admin/adminStreamRoutes.ts:148-156 | the notice says when the connection was made, its task and what the replay holds |
| AdminStreamFailure.GoesLiveByBuffer | src/admin/adminStreamRoutes.ts:116-165 | with cycles as they are read back from the store the stream goes live if and only if, for each key among the buffered events after the cursor, the newest one prints, but for the notice's own key |
| AdminStreamFailure.UnprintableReplayIsSilent | src/admin/adminStreamRoutes.ts:136-171 | a replay with an entry that does not print makes the handler fail before going live, and nothing later is taken |
| AdminStreamFailure.UnprintableEventEndsHandOff | src/admin/adminStreamRoutes.ts:116-165 | a run that does so: one event whose payload does not serialize, published while the cycles are awaited |
| AdminStreamOrder.OutputAtHandOff | src/admin/adminStreamRoutes.ts:117-175 | what the hand-off writes, in order: notice, older history, buffer from the cursor on, then events at or before the cursor that came while waiting |
| AdminStreamOrder.InOrderExactly | src/admin/adminStreamRoutes.ts:117-175 | the events of the buffer and all later ones are received in publication order if and only if the cursor does not lie among those published while waiting, short of the buffer's end |
| AdminStreamOrder.OrderedHandOff | src/admin/adminStreamRoutes.ts:108-175 | over whole runs: the client's output is notice, replay, what a resumed replay left out and every later event, once each, and the order condition above decides it |
| AdminStreamOrder.ResumeInsideWindowReorders | src/admin/adminStreamRoutes.ts:117-175 | a cursor naming the first of two events published while waiting: the client receives them swapped |
| StreamReconcile.Reconciler.ReconcileIntegrationStreams | src/index.ts:295-314 | sets the pending flag, joins the promise in flight or starts a loop; starts a pass exactly when none is in flight and no shutdown came |
| StreamReconcile.Reconciler.RunLoop | src/index.ts:301-304 | starts a pass and clears the flag while a request is pending before shutdown, ends otherwise |
| StreamReconcile.Reconciler.PassResolved | src/index.ts:301-304 | a resolved pass returns to the loop's guard |
| StreamReconcile.Reconciler.PassRejected | src/index.ts:303-305 | a rejected pass ends the loop with the flag as it is |
| StreamReconcile.Reconciler.Finally | src/index.ts:305-312 | clears the promise and restarts when a request is pending before shutdown |
| StreamReconcile.Reconciler.ScheduleStreamReconcile | src/index.ts:316-324 | arms at most one timer, none after shutdown |
| StreamReconcile.Reconciler.TimerFired | src/index.ts:318-323 | disarms the timer and requests a reconcile |
| StreamReconcile.Reconciler.ShutDown | src/index.ts:592-601 | sets the shutdown flag once and disarms the timer |
| StreamReconcile.NeverOverlaps | src/index.ts:295-314 | in every run at most one loop is alive, at most one pass runs, and the promise is set exactly while a loop is alive |
| StreamReconcile.PassesNeverOutnumberRequests | src/index.ts:297-304 | passes started never outnumber accepted requests |
| StreamReconcile.RequestsAreSteps | src/index.ts:295-324 | nor do they outnumber the calls made and timers fired |
| StreamReconcile.NoPassAfterShutdown | src/index.ts:296-307 | no pass begins after shutdown |
| StreamReconcile.UnservedMeansInFlight | src/index.ts:297-312 | while an accepted request has not been followed by a pass, a loop that will see it is alive |
| StreamReconcile.EveryRequestIsServed | src/index.ts:295-314 | from any state with an unserved request some step is there to settle, and any continuation without shutdown, whatever requests and timers it holds, starts a pass within two settled steps, whether passes throw or not |
| StreamReconcile.TwoStepsAreNeeded | src/index.ts:303-312 | a run in which one settled step is not enough: the pass throws and `finally` has yet to start the next |
| StreamReconcile.FulfilledMeansServed | src/index.ts:295-314 | when the returned promise is fulfilled a pass begun after the request has completed, if and only if the request did not land between loop end and `finally` and no shutdown came before its pass began |
| StreamReconcile.ExitWindowIsReachable | src/index.ts:298-306 | a request can land in that window |
| StreamReconcile.TimerArmedExactly | src/index.ts:316-328 | in every run the timer is armed if and only if some schedule has not been followed by its timer and no shutdown came |
| StreamReconcile.ScheduledIsServed | src/index.ts:295-324 | such a schedule's timer can fire, and then a pass begins at once or within two settled steps of any continuation without shutdown |
| LoginRateLimiter.Limiter.Check | src/admin/loginRateLimiter.ts:61-73 | sweeps, answers from the lockout, and marks a window audited at its first blocked check |
| LoginRateLimiter.Limiter.RecordFailure | src/admin/loginRateLimiter.ts:76-93 | the entry after a failure: count in the sliding window, capped exponential lockout, audit mark kept for an unchanged window |
| LoginRateLimiter.Limiter.RecordSuccess | src/admin/loginRateLimiter.ts:96-98 | forgets exactly that key |
| LoginRateLimiter.Limiter.MaybeSweep | src/admin/loginRateLimiter.ts:101-109 | at most every five minutes drops exactly the entries idle for over an hour and not locked |
| LoginRateLimiterProperties.SweepIsUnobservable | src/admin/loginRateLimiter.ts:61-109 | over every run each check is answered as by a limiter that never sweeps |
| LoginRateLimiterProperties.RetryAfterIsExact | src/admin/loginRateLimiter.ts:41-73 | a blocked key that only waits is allowed again if and only if the time it was told has passed |
| LoginRateLimiterProperties.LockoutsAreCapped | src/admin/loginRateLimiter.ts:14-20 | in every run no lockout outlives its last failure by more than the cap |
| LoginRateLimiterProperties.FailureNeverShortens | src/admin/loginRateLimiter.ts:75-93 | at any point of any run recording a failure keeps or extends the lockout in force |
| LoginRateLimiterProperties.AtMostNineFailuresPerWindow | src/admin/loginRateLimiter.ts:13-20 | ten failures of one key recorded when allowed and without a success span more than 15 minutes |
| LoginRateLimiterProperties.NineFailuresAreReachable | src/admin/loginRateLimiter.ts:13-20 | nine within 15 minutes do occur |
| LoginRateLimiterProperties.AuditedMeansBlockedBefore | src/admin/loginRateLimiter.ts:30-36 | an entry is marked audited exactly when a check of its lockout window was blocked already |
| LoginRateLimiterProperties.FirstBlockedExactlyOnce | src/admin/loginRateLimiter.ts:67-72 | a blocked check reports being the first if and only if no earlier one of the same window was blocked |
| LoginHistory.AnswersFollowHistory | src/admin/loginRateLimiter.ts:61-93 | in every run a check is blocked, and told the time left, exactly as the key's own failures since its last success say: 30 seconds from the fifth in a row, doubling, 15 minutes from the tenth |
| LoginHistory.SweptExactly | src/admin/loginRateLimiter.ts:101-109 | a check forgets an entry if and only if five minutes have passed since the last sweep, it is idle for over an hour and not locked |
| CommitMessages.MatchIsFound | agent-worker/src/commitUtils.ts:61-62 | a body with a match of the Change-Id pattern has a Change-Id, that of the match when none comes before |
| CommitMessages.FoundIsFirstMatch | agent-worker/src/commitUtils.ts:61-62 | a Change-Id read is that of a match of the pattern with no match before it |
| CommitMessages.ChangeIdIs | agent-worker/src/commitUtils.ts:61 | a Change-Id is an `I` and forty lower-case hexadecimal digits |
| CommitMessages.AppendedIdDecides | agent-worker/src/commitUtils.ts:325-328 | a Change-Id line appended to a body without one decides what is read |
| CommitUtils.AmendMessage | agent-worker/src/commitUtils.ts:316-333 | the stored message: footer if missing, then Change-Id if wanted, joined to an existing trailer block or set off by a blank line, cleaned up as git does |
| CommitUtils.InjectChangeIds | agent-worker/src/commitUtils.ts:261-355 | all commits amended index by index and collected anew under the default repository key, or the originals when nothing needs a rewrite or the rebase is aborted |
| CommitTrailers.TrailerBlockExactly | agent-worker/src/commitUtils.ts:321 | the scan finds a trailer block if and only if the message has a blank line followed by a letter, letters, digits and hyphens, a colon and a space |
| CommitTrailers.AmendedText | agent-worker/src/commitUtils.ts:316-333 | the stored message written out: a line is joined by one break to a text with a trailer block and set off by a blank line from any other |
| CommitBodies.BodyExactly | agent-worker/src/commitUtils.ts:57 | the body is what follows the first blank line, without the whitespace around it; a single paragraph has none |
| CommitBodies.CleanTextsStay | agent-worker/src/commitUtils.ts:331 | git stores every message without blanks at line ends, empty lines in a row or breaks at its ends, and one like that as it is |
| CommitBodies.CleaningDrops | agent-worker/src/commitUtils.ts:331 | blanks before a break, a third break in a row and breaks at the ends are all it drops |
| CommitInjection.WantedExactly | agent-worker/src/commitUtils.ts:284-295 | the id wanted for a commit, in the source's order of precedence, down to the text that is hashed |
| CommitInjection.RecordedExactly | agent-worker/src/commitUtils.ts:170-187 | the recorded id of a commit: a single one for the first commit only, an indexed one at its index |
| CommitInjection.InjectedInFull | agent-worker/src/commitUtils.ts:261-355 | commit i of a range written out: what it was if nothing needs a rewrite, else its message as `AmendedText` says under the default repository key |
| CommitUtilsProperties.CleanedMessageReads | agent-worker/src/commitUtils.ts:331 | git's clean-up of a message neither adds, nor loses, nor changes its Change-Id |
| CommitUtilsProperties.AmendedReads | agent-worker/src/commitUtils.ts:316-333 | the Change-Id read from an amended message: the one it has with its footer on, else the wanted one if it reads back |
| CommitUtilsProperties.AmendedExtends | agent-worker/src/commitUtils.ts:316-333 | an amended message is the old one, or its cleaned text followed by what was added |
| CommitUtilsProperties.AmendedAgain | agent-worker/src/commitUtils.ts:316-333 | amending changes nothing if and only if no id is wanted and the footer is found |
| CommitUtilsProperties.InjectedAt | agent-worker/src/commitUtils.ts:268-333 | commit i of a whole range, rewritten or not: its cleaned text stays in front of what was added, an existing Change-Id is unchanged, a missing one is that of the footer or the one wanted |
| CommitUtilsProperties.InjectionIsTotalExactly | agent-worker/src/commitUtils.ts:251-355 | every commit carries a Change-Id afterwards if and only if each carries one with its footer on or was given one that reads back, whatever the footer |
| CommitUtilsProperties.InjectionIsIdempotentExactly | agent-worker/src/commitUtils.ts:251-355 | a second injection changes nothing if and only if every commit has an id or was given none that fails to read back, and its footer is found in the stored message |
| CommitFooters.FooterStaysExactly | agent-worker/src/commitUtils.ts:316-333 | a one-line footer is found in the message stored with it if and only if its end survives, or it stands in the cleaned message or the Change-Id line, or nothing is amended as the message has it |
| CommitFooters.OneLineInjectionIsIdempotentExactly | agent-worker/src/commitUtils.ts:251-355 | with a one-line footer, or none, a second injection changes nothing if and only if every id given reads back or none was needed, and the footer meets that condition |
| CommitFooters.TidyInjectionIsIdempotentExactly | agent-worker/src/commitUtils.ts:251-355 | with a footer git stores unchanged, or none, a second injection changes nothing if and only if no commit was given an id that cannot be read back |
| CommitFooters.InjectionRepeatsFooter | agent-worker/src/commitUtils.ts:261-355 | a one-line footer ending in a blank that stands neither in a commit's trimmed message nor in its Change-Id line is added by each of any number of injections |
| CommitFooters.FooterEndingInBlankIsRepeated | agent-worker/src/commitUtils.ts:320-332 | such a message and footer: it is not found in the stored message and makes that grow on the next run too |
| CommitUtilsProperties.KeysSurviveExactly | agent-worker/src/commitUtils.ts:353 | commits keep their repository keys if and only if nothing is rewritten or all have the default key |
| CommitUtilsProperties.RewriteForgetsRepository | agent-worker/src/commitUtils.ts:353 | a commit of a submodule rewritten for its footer comes back under the default key |
| CommitUtilsProperties.IdPrecedence | agent-worker/src/commitUtils.ts:284-295 | a commit keeps the id it has; one without gets the recorded id of its index, else the legacy id if it is the first, else the derived one |
| CommitUtilsProperties.EmptyPriorIdLeavesCommitWithout | agent-worker/src/commitUtils.ts:176-187 | a prior id stored as the empty string is neither used nor replaced |
| DerivedChangeIds.DerivedIdsDifferByIndex | agent-worker/src/commitUtils.ts:153-168 | with an injective digest two commits of one repository never get the same derived id |
| DerivedChangeIds.RepositoriesCollideExactly | agent-worker/src/commitUtils.ts:153-168 | two different keys can share a derived id if and only if one is the other, a colon and a decimal number, and ends there or goes on with a colon |
| DerivedChangeIds.PlainKeysDiffer | agent-worker/src/commitUtils.ts:153-168 | for keys without a colon derived ids agree if and only if key, index and subject do |
| DerivedChangeIds.ColonInRepoKeyCollides | agent-worker/src/commitUtils.ts:164-168 | two keys, one continuing the other with a number, and two commits of theirs that share a derived id |
| RepoGrouping.GroupFilesByRepo | agent-worker/src/commitUtils.ts:418-445 | maps each key to the files placed there, in the order given, and holds no empty group |
| RepoGrouping.PlacedAt | agent-worker/src/commitUtils.ts:426-439 | a file goes to the first submodule whose directory holds it, else to the superproject, with the directory cut off |
| RepoGrouping.PlacedExactly | agent-worker/src/commitUtils.ts:426-439 | the same with directories as texts: the file is the directory, a slash and its path there, the directory neither empty nor the root |
| RepoGrouping.GroupKeepsOrder | agent-worker/src/commitUtils.ts:418-445 | a group lists its files in the order given |
| RepoGrouping.GroupsPartition | agent-worker/src/commitUtils.ts:418-445 | every file lands in exactly one group: group sizes over distinct keys add up to the number of files |
| RepoGrouping.ReattachingUndoesGrouping | agent-worker/src/commitUtils.ts:418-445 | with distinct keys, putting the directories back gives the original multiset of files, nested submodules included |
| AdminTaskRoutes.ByTicket | src/admin/adminTaskRoutes.ts:311-317 | the first pass: one winner per ticket key, in the order keys first occur |
| AdminTaskRoutes.DeduplicateByTicket | src/admin/adminTaskRoutes.ts:310-334 | the winners that also win their change, in order |
| AdminTaskProperties.LatestIsFirstNewest | src/admin/adminTaskRoutes.ts:288-294 | the task kept for a key is the first listed of those no other is newer than |
| AdminTaskProperties.KeptExactly | src/admin/adminTaskRoutes.ts:304-334 | a task is kept if and only if it is the latest of its ticket and, of those, the latest of its change |
| AdminTaskProperties.OnePerTicketAndChange | src/admin/adminTaskRoutes.ts:304-309 | no two kept tasks share a ticket key or a change key |
| AdminTaskProperties.Dominated | src/admin/adminTaskRoutes.ts:304-334 | every task is matched by a kept task of its project that is at least as recent |
| AdminTaskProperties.Idempotent | src/admin/adminTaskRoutes.ts:310-334 | de-duplicating twice is de-duplicating once |
| AdminTaskProperties.DeduplicationCommutesWithVisibility | src/admin/adminTaskRoutes.ts:310-334 | hiding tasks by project before or after de-duplicating gives the same list |
| AdminTaskProperties.ScopedListsAgree | src/admin/adminTaskRoutes.ts:20-27 | so for every `task.read` scope of a caller |
| AdminTaskProperties.TicketKeysAgreeExactly | src/admin/adminTaskRoutes.ts:296-299 | ticket keys agree if and only if number, project and source do, the source being the integration if named, else the label |
| AdminTaskProperties.KeptIsLatest | src/admin/adminTaskRoutes.ts:288-334 | by update and then creation time a kept task is as late as any of its ticket, first in the list among equals, and as late as any winner of its change |
| AdminTaskProperties.DroppedForOne | src/admin/adminTaskRoutes.ts:304-334 | a task is dropped only for another of its ticket or change that it is not later than |
| AdminTaskProperties.SupersededOnlyByLater | src/admin/adminTaskRoutes.ts:304-334 | every task has a kept one of its project that is as late by update and creation time |
| TimeBins.ThroughputBins | src/admin/adminOverviewRoutes.ts:305-319 | total and the 14 windows with their counts, or none for an empty all-time period |
| TimeBins.ExportBinsTile | src/admin/adminOverviewRoutes.ts:305-319 | the counts add up to the total for every period, and the windows follow each other from start to end |
| TimeBins.ExportWindow | src/admin/adminOverviewRoutes.ts:303-319 | each of the fourteen windows starts and ends at a fourteenth of the period, rounded down, and counts its updates; start and end of the period by case |
| TimeBins.UpdatesExactly | src/admin/adminOverviewRoutes.ts:303-304 | the updates counted are those of the period, each as often as given |
| TimeBins.ComputeThroughput | src/admin/adminOverviewRoutes.ts:164-176 | bin k counts exactly the updates whose age lies in the k-th of the last 14 intervals; all zero without an interval |
| TimeBins.BinOfAge | src/admin/adminOverviewRoutes.ts:170-173 | the bin computed from an age is the one whose time window holds the update |
| TimeBins.WindowsTile | src/admin/adminOverviewRoutes.ts:309-314 | windows with ascending edges count every value of the span exactly once |
| TimeBins.DashboardBinsTile | src/admin/adminOverviewRoutes.ts:164-176 | the bins add up to the updates of age at least 0 and below 14 intervals |
| ModelUsage.FilterModelUsageSummary | src/admin/adminOverviewRoutes.ts:104-135 | readable projects only, one merged entry per key sorted by runs, totals equal to the sums over all kept entries |
| ModelUsage.KeysAgreeExactly | src/admin/adminOverviewRoutes.ts:114-115 | entries share a key if and only if model, unresolved counting as empty, and bucket agree |
| ModelUsage.MergedSums | src/admin/adminOverviewRoutes.ts:116-123 | a merged entry carries the usage of exactly the entries with its key |
| ModelUsage.ByModelConserves | src/admin/adminOverviewRoutes.ts:111-134 | runs, cost, tokens and measured runs of the list equal those of all kept entries, one entry per key, in descending run order |
| ModelUsage.UsageIsSums | src/admin/adminOverviewRoutes.ts:116-131 | a usage is the sum, field by field, of the entries it is taken over |
| ModelUsage.EveryModelIsCounted | src/admin/adminOverviewRoutes.ts:112-113 | every entry of every kept project is counted as often as it is listed |
| ModelUsage.ReadableExactly | src/admin/adminOverviewRoutes.ts:108-110 | a project is kept if and only if it has an id and the id is readable |
| Csv.GuardHolds | src/admin/adminRouteUtils.ts:6-9 | a guarded cell never opens with optional whitespace and a formula character, and guarding again changes nothing |
| Csv.GuardConfusesExactly | src/admin/adminRouteUtils.ts:7 | two cells are printed alike if and only if they are equal or one is the other, a formula, with an apostrophe in front |
| Csv.GuardExactly | src/admin/adminRouteUtils.ts:7 | a cell gets an apostrophe if and only if it is whitespace, one of the four formula characters, and anything |
| Csv.CellExactly | src/admin/adminRouteUtils.ts:8 | a cell is printed between quotes with its own quotes doubled |
| Csv.RoundTrip | src/admin/adminAuditRoutes.ts:102 | an RFC 4180 section 2 reader gets back exactly the table of guarded cells, whatever they contain |
| Csv.PrintsAgreeExactly | src/admin/adminAuditRoutes.ts:102 | two exports are the same text if and only if their guarded tables are equal |
| Csv.NoCellIsFormula | src/admin/adminRouteUtils.ts:6-9 | no cell read back from an export opens with optional whitespace and a formula character |
| AuditStore.Store.Append | src/state/stores/auditStore.ts:90-111 | the entry gets the next id and goes to the end of the log |
| AuditStore.Store.ListAuditEntries | src/state/stores/auditStore.ts:113-150 | the page of the ordered matching entries and their count, with other requests appending between the two queries |
| AuditStore.AppendsAreInvisible | src/state/stores/auditStore.ts:127 | nothing appended after an id was read matches a query bounded by it |
| AuditStore.OrderedIsExact | src/state/stores/auditStore.ts:133-139 | the order is strict, newest first, and lists the same entries |
| AuditStore.OrderedByTimeThenId | src/state/stores/auditStore.ts:137 | later creation comes first, and among equal times the higher id |
| AuditStore.CountedExactly | src/state/stores/auditStore.ts:114-128 | an entry matches if and only if it meets every filter given, in its own fields |
| AuditStore.PageIs | src/state/stores/auditStore.ts:130-139 | a page holds the entries from its offset on, at least 1 and at most 200 of them as far as there are any |
| AdminAuditRoutes.LoadExportEntries | src/admin/adminAuditRoutes.ts:105-122 | all pages together are the ordered matching entries of the snapshot, or nothing beyond 50000, whatever is appended between pages; it ends |
| AdminAuditRoutes.ExportEntries | src/admin/adminAuditRoutes.ts:152-158 | the export is exactly what matched when the snapshot id was read |
| AdminAuditRoutes.ExportIsExact | src/admin/adminAuditRoutes.ts:105-122 | every matching entry once, nothing else, newest first |
| AdminAuditRoutes.AuditCsvReadsBack | src/admin/adminAuditRoutes.ts:90-103 | reading the file gives the header and one record per entry in order, ids unchanged, the other columns guarded |
| AdminAuditRoutes.AuditCsvColumns | src/admin/adminAuditRoutes.ts:90-103 | header and each of the eight columns of a record, in the entry's own fields |
| AdminAuditRoutes.ExportedInFields | src/admin/adminAuditRoutes.ts:105-122 | exported entries are in order of creation, newest first, and of id among equal times |
| AgentEngines.ParseEngineList | src/agents/agentEngines.ts:69-76 | the known engines named on some line, in catalog order |
| AgentEngines.NormalizedIsCanonical | src/agents/agentEngines.ts:78-85 | a normalized list holds the default engine and the given ones and is the normal form of its own elements |
| AgentEngines.ListRoundTrip | src/agents/agentEngines.ts:69-76 | reading a written list gives its elements in catalog order |
| AgentEngines.SelectionRoundTrip | src/agents/agentEngines.ts:136-158 | a saved selection reads back as it was normalized |
| AgentEngines.CommentNamesNothing | src/agents/agentEngines.ts:68-73 | a comment names no engine when no line terminator follows on its line |
| AgentEngines.CommentEndsAtTerminator | src/agents/agentEngines.ts:73 | what follows a line terminator left in a comment is read as if the comment were not there |
| AgentEngineEffects.CommentIsCut | src/agents/agentEngines.ts:73 | a line names the engine left when everything from the first `#` to a line terminator is taken out and the rest trimmed |
| AgentEngineEffects.ParsedExactly | src/agents/agentEngines.ts:69-90 | an engine is read from a text if and only if some line names it, in catalog order |
| AgentEngineEffects.WrittenText | src/agents/agentEngines.ts:154-188 | the saved file: its header as a comment, a name a line, a final break |
| AgentEngineEffects.UsageText | src/agents/agentEngines.ts:164-188 | the file of engines in use, likewise |
| AgentEngineSelection.AgentEngineStateStore.ReadRequested | src/agents/agentEngines.ts:136-140 | the normalized selection, none when no file was saved |
| AgentEngineSelection.AgentEngineStateStore.WriteRequested | src/agents/agentEngines.ts:154-158 | stores and returns the normal form |
| AgentEngineSelection.AgentEngineStateStore.RecordIntegrationUsage | src/agents/agentEngines.ts:160-175 | writes the engines in use and adds a newly used one to an existing selection |
| AgentEngineSelection.AgentEngineStateStore.SeedRequested | src/agents/agentEngines.ts:190-196 | creates a selection only when there is none |
| AgentEngineSelection.AgentEngineStateStore.InitializeAgentEngineState | src/agents/agentEngines.ts:218-238 | seeds from engines in use and installed, records usage, reports enabled integrations whose engine is missing |
| AgentEngineSelection.IntegrationsByEngine | src/admin/adminAgentEngineRoutes.ts:33-48 | per engine in use the visible names in order and the number hidden |
| AgentEngineSelection.PutSelection | src/admin/adminAgentEngineRoutes.ts:86-123 | refuses unknown engines, then any selection that drops an engine in use, naming exactly those; otherwise saves the normal form and reports what was added and removed |
| AgentEngineSelection.GuardExactly | src/admin/adminAgentEngineRoutes.ts:101-110 | the guard refuses a selection of known engines if and only if saving it would leave an engine in use out |
| AgentEngineSelection.CreationExactly | src/admin/adminIntegrationRoutes.ts:93-101 | creating an integration keeps the selection covering if and only if usage is recorded or there is nothing to add |
| AgentEngineSelection.BootKeeps | src/agents/agentEngines.ts:190-196 | booting neither loses nor repairs an existing selection |
| AgentEngineSelection.SelectionCoversUse | src/agents/agentEngines.ts:154-196 | over every run whose creations are recorded, a selection is canonical and holds the default engine and every engine in use |
| AgentEngineSelection.UsageListIsExact | src/agents/agentEngines.ts:160-170 | over every run whose changes reach it, the usage list reads back as exactly the engines in use |
| AgentEngineSelection.UnrecordedCreationIsNotRepaired | src/agents/agentEngines.ts:190-196 | an engine whose recording failed is missing from the selection after a complete boot too |
| AgentEngineEffects.StepsDo | src/admin/adminIntegrationRoutes.ts:93-101 | what a boot, a launcher run, a creation, a deletion and a save make of integrations and selection, and which are refused |
| AgentEngineEffects.AcceptedExactly | src/admin/adminAgentEngineRoutes.ts:92-110 | a save is accepted if and only if every value names an engine and every engine in use but the default is named |
| AgentEngineEffects.UsageExactly | src/admin/adminAgentEngineRoutes.ts:41-47 | an engine's usage is the names of its visible integrations in order and the number of its hidden ones |
| AgentEngineEffects.MissingExactly | src/agents/agentEngines.ts:233-237 | an integration is reported missing if and only if it is enabled and its engine, not the default, is known not to be installed |
| AgentEngineEffects.PreviousHolds | src/admin/adminAgentEngineRoutes.ts:112 | a save is compared with the selection saved before, or the default engine alone |
| AdminRouter.Router.Add | src/admin/router.ts:45-80 | registers after the existing routes one for the upper-cased method and the compiled pattern: in each segment a colon with text after it names a parameter |
| AdminRouter.CapturesExactly | src/admin/router.ts:43-54 | a path is matched with certain parameters if and only if the pattern filled with them, none of them empty, is that path |
| AdminRouter.SegmentsExactly | src/admin/router.ts:43-54 | a path is its segments with slashes between them, and no segment holds one |
| AdminRouter.ParamExactly | src/admin/router.ts:47-52 | the first colon with something after it names a parameter, up to the segment's end |
| AdminRouter.LiteralExactly | src/admin/router.ts:45-52 | without such a colon a segment is matched as it is |
| AdminRouter.PlainNameKept | src/admin/router.ts:46-51 | a parameter name without regular-expression characters is kept as it is |
| AdminRouter.SpecialIsEscaped | src/admin/router.ts:46 | each of those characters is kept with a backslash before it |
| AdminRouter.CompiledInPlace | src/admin/router.ts:43-54 | a pattern is compiled segment by segment |
| AdminRouter.ParamsExactly | src/admin/router.ts:92-102 | the parameters are the captured names, the last capture of a name counting, decoded, or empty when it does not decode |
| AdminRouter.DecodingDecides | src/admin/router.ts:125-139 | of the requests for a known route those with an undecodable parameter are refused and the others handled |
| AdminRouter.Router.Match | src/admin/router.ts:87-106 | metadata and parameters of the first route registered for the upper-cased method and the path, undecodable parameters empty |
| AdminRouter.Router.Dispatch | src/admin/router.ts:112-147 | runs that route's handler with its parameters, answers 400 for an undecodable one, 405 for a known path, nothing otherwise |
| AdminRouter.GateAgreesWithDispatch | src/admin/router.ts:82-147 | a handler only runs for a route the gate saw, with the same parameters; 405 exactly when only other methods match |

## Left out

- AgentStderrPipeline.Pipeline.ProcessLine: what the process does with an exception that leaves the pipeline is outside it; the model says that one leaves and what state it leaves behind. Whether a handler or listener throws depends on the event alone; one that throws by its own state is not modelled. Timestamps of plain-line events are part of the uninterpreted event.
- AdminStreamProperties.GaplessHandOff: takes the stream as gone live, `GoesLiveExactly` saying when it does; an entry prints when its event's payload serializes, and redaction may make others print; a normalizer that itself fails on a payload is not modelled.
- AdminStreamFailure.UnprintableReplayIsSilent: what the server does with the handler's rejection (src/admin/adminServer.ts:266-273) is not modelled.
- AdminStreamOrder.OrderedHandOff: order is stated for distinct keys, a notice key of its own, printable entries and a buffer not cleared while waiting; the gapless result needs no distinct keys and no uncleared buffer.
- LoginRateLimiterProperties.AtMostNineFailuresPerWindow: takes each failure as recorded at a time the limiter allows and a clock that never runs backwards; concurrent logins that all passed the check before the first failure was recorded are outside it.
- CommitUtilsProperties.InjectionIsTotalExactly: messages are not blank, which git refuses to commit; whitespace at the start of a message that git would keep and JavaScript trims counts as blank.
- CommitUtilsProperties.InjectionIsIdempotentExactly: the footer is absent or has something visible in it, as every one the ticket formatter (src/utils/ticketFooterFormatter.ts:72-103) makes has.
- CommitFooters.FooterStaysExactly: the footer is one line and starts with something visible, as that formatter makes them; of others `TidyInjectionIsIdempotentExactly` covers those git stores unchanged.
- CommitUtils.InjectChangeIds: git is a list of messages; the subject is a field of its own, and whether the rebase is left in progress is a parameter.
- DerivedChangeIds.RepositoriesCollideExactly: SHA-1 is any injective function; shape and injectivity are hypotheses.
- RepoGrouping.GroupFilesByRepo: keys JavaScript objects treat specially (`__proto__`) are not modelled.
- AdminTaskRoutes.DeduplicateByTicket: keys are tuples instead of their JSON text, which is injective on strings and null.
- ModelUsage.FilterModelUsageSummary: cost is a real number, so floating-point rounding is not modelled; `sort` is a stable insertion sort.
- TimeBins.ThroughputBins: times and intervals are whole milliseconds.
- AuditStore.Store.ListAuditEntries: SQL is modelled by its meaning on a list; the details column is its masked text plus the integration id it names.
- AdminAuditRoutes.LoadExportEntries: the snapshot id is one that was read from the same log, as its only caller passes it.
- AgentEngineSelection.SelectionCoversUse: operations run one after another; the launcher only rewrites its own two files.
- AdminRouter.Router.Match: regular expressions are modelled segment by segment, which their parameters cannot cross; `toUpperCase` and URL decoding are parameters.
- Event normalization, deduplication keys and SHA-based entry ids: uninterpreted functions.
- Characters are Dafny characters, not UTF-16 code units.
- Describing engines for the UI and deriving image names from engine ids: element-wise mappings.
- HTTP responses, SSE headers, heartbeats, sockets, permission checks of the stream route and its branch without a task.
- collectCommits' file lists and repository choice, squashing into the base commit, resolving the root change: thin wrappers around git or single branches.
- The cost summary filter and the other rows of the analytics export: the same sums as in `ModelUsage` with nothing to merge.
- Agent adapters, connectors, the policy engine, the orchestrator, OAuth, sessions, secret masking and the dashboard.
