# claude-c: a Dafny model of the agent core

claude-c is a terminal coding agent. Its core runs tools in parallel threads, passes work between
threads through two bounded queues, keeps the conversation history well formed for the provider,
translates it between provider formats, edits text, and retries provider calls. This project models
that core and proves what it promises. `dafny verify dfyconfig.toml` checks everything.

## How the model is laid out

| files | what they model |
|---|---|
| `ToolProtocol`, `ToolProtocolInvariant`, `ToolProtocolTheorems`, `ToolProtocolResults`, `ToolProtocolSignals`, `ToolProtocolProgress` | the parallel execution of the tool calls of one response: launch loop, thread bodies, cancellation cleanup handlers, completion tracker, interrupt flag, timed wait, joins, as one state machine whose events interleave arbitrarily |
| `ToolTracker` | tracker, thread argument and result block as objects updated in place |
| `ToolRound` | the results of a finished round as a message of the conversation |
| `Ring`, `InstructionQueue`, `QueueMonitor`, `AIWorker` | the instruction queue as a ring buffer, as a monitor with two condition variables and any number of threads, and its worker thread with `ai_worker_stop` |
| `TuiQueue` | the ring of UI messages that drops its oldest entry, with ownership of the text buffers |
| `Conversation`, `ConversationRepair` | the history, and the repair that gives every tool call a result |
| `OpenAiRequest`, `Answering`, `RequestProofs`, `RequestShape`, `CacheMarks` | the message list of a request: that it answers every call it emits, is well formed, and which of its messages carry a cache mark |
| `Translation`, `BedrockTranslation`, `TranslationProofs`, `MeaningExact`, `TranslationRoundTrip`, `AnthropicAnswers`, `AnthropicShape` | the two converters to Anthropic messages, the way back, and what holds from the history to the wire |
| `Text`, `PatchParser`, `PatchGrammar`, `PatchDocuments`, `PatchRoundTrip`, `PatchExact`, `PatchApply` | "Begin Patch" documents: their grammar, parsing, printing, applying |
| `ReplaceAll`, `Base64`, `Base64Proofs`, `Base64Decoding`, `HistoryFile`, `HistoryFileProofs` | replace-all with its wrapping size arithmetic, base64, the escaped history log |
| `PasteMachine`, `Sanitizer`, `SanitizerPipeline`, `SanitizerProofs` | the bracketed-paste recogniser and the in-place cleaner |
| `LineEditor`, `LineEditorZipper`, `LineEditorProofs` | the input line: growing buffer, cursor, words, completion, history navigation |
| `Capacity` | the growth policy for arrays and buffers in machine-word arithmetic |
| `RetryLoop` | exponential backoff with jitter under a deadline, read off a second/nanosecond clock |

Conventions: a C pointer that may be NULL is an `Option`; a C pointer into a string is the suffix it
points at; strings hold no NUL; JSON is a datatype whose objects are finite maps; printing and
parsing of JSON text are parameters, assumed inverse to each other (`Json.Faithful`) where a lemma
says so. Code that changes objects or buffers in place is a class or a method over arrays whose
contract equates the new state with a function of the old one; the theorems are about those
functions.

## What turned out false of the code, and when exactly it holds

- Submitting a new line clears the shared interrupt flag (`src/claude.c:5357`). If that happens after
  an interrupt has stopped the launching of tools and before the wait loop looks at the flag, the
  wait loop polls for ever unless the flag is set again, because calls that were never launched keep
  `completed` below `total`. `DoomIsReachable` is such a run. `CanFinishExactlyUnlessDoomed` shows
  that the protocol can finish from every reachable state except these, `LauncherTerminates` that
  outside of them it does finish once the threads have exited, and `NeverDoomedIfFlagKept` that they
  need the flag to be cleared.
- `ai_worker_stop` does not stop at once: an instruction for which the worker has already found
  `running` set is still handled (`HandledAfterStop`). It is at most that one, and exactly when the
  worker was at that point (`StopIsFinalExactly`).
- `ensure_tool_results` marks only the first call with an id, so it never takes a repeated id for
  answered: every repair appends another message until the history is full (`RepeatedIdNeverSettles`,
  and `RepeatedId` for one such history), while distinct ids settle after one repair
  (`DistinctIdsSettle`). It injects exactly what is missing, and a second repair changes nothing,
  under the exact conditions of `RepairInjectsExactly` and `RepairIdempotentExactly`.
- A history that is full (10000 messages) cannot be repaired: `RepairAnswers`,
  `EveryRequestAnswersItsCalls` and `AnthropicAnswersItsCalls` are equivalences with that condition;
  `FullHistoryUnanswered` is such a history.
- A request does not say all that any history could say: images in user messages are never sent
  (`ImageIsNotSent`), and of the texts of an assistant message only the first, and only in front of
  the calls (`TextBehindEmptyIsLost`). `OpenAiPreservesMeaningExactly` and
  `AnthropicPreservesMeaningExactly` say exactly when nothing is lost; `StoredMessageIsSayable` and
  `RepairIsSayable` that stored answers and repairs never lose anything, but for results without ids
  on the way to Anthropic.
- The Bedrock converter drops plain empty user texts and tool results without an id, for which the
  Anthropic converter emits a message (`BedrockAgreesExactly`, `EmptyLineIsDropped`). It cuts an
  image's media type at a semicolon (`ImageKeptExactly`).
- A response with empty text is stored as an empty text block, which does not survive being sent out
  again (`StoredIsCanonical`, `EchoUnchangedExactly`, `EmptyAnswerIsLost`).
- The history file loses texts with a backslash directly followed by `n` and carriage returns at the
  end of a text (`LoadGivesLastTextsExactly`, `LostTexts`).
- A bracketed paste of a megabyte can never end: once the buffer is full the end sequence overflows
  with everything else (`PasteDeliveredExactly`, `FullStaysFull`). In `src/` nothing calls
  `paste_process_char` yet.
- An escape key pressed right before it hides a bracketed paste: the start sequence is recognised only
  behind a single escape (`EscapeDecidedExactly`, `PasteBehindEscapeIsMissed`).
- One sanitising pass is not always enough (`TwoPassesNeeded`, `OnePassEnoughExactly`). Nothing in
  `src/` calls `paste_sanitize` yet either.
- Moving back a word skips a word that starts at index 1 (`WordBackExactly`, `WordAtOneIsSkipped`).
  Nothing in `src/` calls `ncurses_input_readline`; `src/tui.c` has an editor and a
  `move_backward_word` of its own (`src/tui.c:507`).
- `str_replace_all` never ends on an empty pattern, which its caller does not rule out
  (`LoopsEndExactly`).
- A sleep cut short to the time that is left can end with the deadline not yet showing as passed:
  exactly for a maximum of a second or more that is no whole number of seconds
  (`TruncatedSleepReachesDeadlineExactly`, `RoundingHidesDeadline`).
- `calculate_capacity` exceeds its maximum when the configured minimum does (`WithinLimitExactly`,
  `MinimumBeatsMaximum`). The comment on `buffer_append` in `src/array_resize.h` names another default
  configuration than the code uses; the model follows the code.

## Model

| member | source | states |
|---|---|---|
| ToolProtocolInvariant.EventKeepsInv | src/claude.c:4959-5110 | every event, whichever thread acts, keeps the invariant that ties program points, slots, arguments, fates of calls, tracker and log together |
| ToolProtocolInvariant.RunKeepsInv | src/claude.c:4959-5110 | the invariant holds in every state of every run |
| ToolProtocolInvariant.RoomForArgument | src/claude.c:5019-5028 | the argument array, sized by the valid calls, has room for every thread that is launched |
| ToolProtocolTheorems.CountingIsSafe | src/claude.c:1739-1772 | in every state of every interleaving `error_count <= completed <= total`, no call has been counted twice, and announced numbers have no gaps |
| ToolProtocolTheorems.FinalResults | src/claude.c:4943-5115 | when the launcher is done every slot holds the result of its own call with its own id, or an image; exactly the attempted calls were counted, once each, with the error status their slot still has, and `error_count` is the number of those whose slot is an error; `completed == total` unless launching was interrupted |
| ToolProtocolResults.ThreadLeavesItsResult | src/claude.c:1810-1892 | in every run a started thread leaves the cancellation error in the slot of the call it was created for if and only if it was cancelled before announcing its result; otherwise the slot reports exactly what its tool returned: an image, or a response with the call's id and the result's error status |
| ToolProtocolResults.ResultsComeFromTools | src/claude.c:1861-1887 | a slot is an image, or the response of a tool that ran with a given error status, if and only if a thread of that call returned exactly that and was not cut off before |
| ToolProtocolSignals.FailedStartsExactly | src/claude.c:5029-5051 | the slots that report a failed start are exactly those of the calls for which the thread creation failed |
| ToolProtocolSignals.CancelledThreadsExactly | src/claude.c:5033-5077 | at the end exactly those threads have been asked to cancel beside which a later start failed, or all of them when the wait saw the interrupt |
| ToolProtocolSignals.InterruptIsConsumedExactly | src/claude.c:4963-5151 | when the launcher finishes the shared flag is set if and only if it was last set, not cleared, and the launcher never saw it |
| ToolProtocolSignals.InterruptTakenBackBeforeJoin | src/claude.c:5073-5077 | an interrupt seen in the wait is taken back before the joins; only a new one sets the flag again |
| ToolProtocolSignals.NoWaitWithoutThreads | src/claude.c:5058 | a round that started no thread does not wait and cancels nothing |
| ToolProtocolProgress.EventsUseUpRank | src/claude.c:4959-5110 | every event but a poll or a flag change uses up a rank, so none of them can recur for ever |
| ToolProtocolProgress.WorkIsBounded | src/claude.c:4959-5110 | a run on n calls has at most n(n + 16) + 7 events that are not polls or flag changes |
| ToolProtocolProgress.LauncherNeverStuck | src/claude.c:4959-5110 | the launcher always has a step, waiting only for joins, and never reaches past an array |
| ToolProtocolProgress.CanFinishExactlyUnlessDoomed | src/claude.c:5058-5110 | a reachable state can run on to the end if and only if the interrupting flag was not cleared before the wait loop looked at it |
| ToolProtocolProgress.NeverDoomedIfFlagKept | src/claude.c:5058-5110 | without such a clearing event every reachable state can finish |
| ToolProtocolProgress.LauncherTerminates | src/claude.c:5058-5110 | from a reachable state that is not doomed and in which launching is over and the threads have exited, every run without flag changes has at most two polls and a bounded number of events, and it can only stop when the launcher is done |
| ToolProtocolProgress.DoomIsReachable | src/claude.c:5356-5357 | a concrete run of two calls after which the wait loop can only poll |
| ToolTracker.ToolExecutionTracker.NotifyCompletion | src/claude.c:1739-1772 | counts an argument once, with the error status of its result, and tells the callback the new number; a second notification changes nothing |
| ToolTracker.ToolExecutionTracker.FinishTool | src/claude.c:1861-1887 | a finished tool leaves its result under its own id and is counted unless it was before |
| ToolTracker.ToolExecutionTracker.Cleanup | src/claude.c:1810-1844 | a cancelled thread whose result was announced leaves everything alone; any other becomes one counted cancellation error |
| ToolTracker.ToolExecutionTracker.FinishThenCancelled | src/claude.c:1810-1892 | cancellation after the announcement neither changes the result nor counts again |
| ToolRound.ResultIdsOfRound | src/claude.c:4959-5178 | the ids in the results that a finished round adds to the history are exactly the calls' own ids without those of image results |
| ToolRound.RoundReportsTools | src/claude.c:1861-1887 | what a tool that was not cut off returned stands in the message of the round at its call's place: its output under the call's id with its error status, or its image |
| ToolRound.RoundKeepsAnsweredExactly | src/claude.c:4852-5178 | a round on an answered history leaves an answered history if and only if each call id of the assistant message got a result that is no image |
| Ring.IndexIsMod | src/message_queue.c:79-80 | the index arithmetic of the ring is addition modulo the capacity |
| Ring.WindowHoldsAll | src/message_queue.c:206-222 | if slots outside the live window hold nothing, the whole array holds exactly what the window holds |
| InstructionQueue.AIInstructionQueue.EnqueuePass | src/message_queue.c:267-307 | one pass of an enqueue on the ring does what the abstract queue does: wait when full, refuse after shutdown, else append |
| InstructionQueue.AIInstructionQueue.DequeuePass | src/message_queue.c:309-343 | one pass of a dequeue delivers the oldest item, after shutdown too, else waits or ends |
| InstructionQueue.AIInstructionQueue.FreeAll | src/message_queue.c:357-374 | freeing every slot frees exactly the texts accepted and not delivered, each once |
| QueueMonitor.EventKeepsInv | src/message_queue.c:267-355 | every pass, signal, broadcast and spurious wakeup keeps the FIFO, the thread places and the wakeup counts |
| QueueMonitor.BoundedFifo | src/message_queue.c:267-343 | over every run accepted is delivered followed by what is queued, within the capacity |
| QueueMonitor.ShutdownExactly | src/message_queue.c:345-355 | the queue is shut down if and only if a shutdown has happened |
| QueueMonitor.ConsumerOutcomeExactly | src/message_queue.c:309-343 | in every run a consumer's pass parks it if and only if nothing is queued and no shutdown has happened; it takes the oldest item whenever there is one and leaves empty-handed only after shutdown |
| QueueMonitor.ProducerOutcomeExactly | src/message_queue.c:267-307 | a producer's pass parks it, with its instruction, if and only if the queue is full and no shutdown has happened; it is refused if and only if one has, and else accepted |
| QueueMonitor.NoLostWakeup | src/message_queue.c:267-343 | a parked consumer beside a queued item has a woken one whose next pass takes the oldest item; dually for producers and free slots |
| QueueMonitor.NeverBothStuck | src/message_queue.c:267-343 | while producers and consumers are both parked, at least `capacity` threads have been woken |
| QueueMonitor.AfterShutdown | src/message_queue.c:345-355 | after shutdown nothing more is accepted and nobody is parked again |
| QueueMonitor.ResumeAfterShutdownLeaves | src/message_queue.c:275-341 | a woken thread's next pass after shutdown gets it out of the queue |
| AIWorker.HandledInOrder | src/ai_worker.c:21-43 | the handled instructions are a prefix of the accepted ones, in order, and at most one delivered instruction is unhandled |
| AIWorker.StopIsFinalExactly | src/ai_worker.c:33-40 | after `running` is cleared at most one more instruction is handled: the one for which the worker had already found it set, as soon as the worker goes on; from any other place nothing more |
| AIWorker.HandledAfterStop | src/ai_worker.c:33-91 | a concrete run in which an instruction is handled after the stop |
| AIWorker.StopTakesAtMostOne | src/ai_worker.c:21-91 | after `running` is cleared the worker takes at most one more instruction out of the queue, and only if it was inside the dequeue call |
| AIWorker.ExitsOnlyWhenStopped | src/ai_worker.c:21-43 | the worker has not exited while `running` is set |
| AIWorker.WaitsOnlyForWork | src/ai_worker.c:21-43 | a worker that has not exited waits only on an empty, open queue and else has a next event |
| AIWorker.ExitsAfterShutdown | src/ai_worker.c:75-106 | after the shutdown every event of the worker brings it nearer to its exit and it always has one |
| TuiQueue.TUIMessageQueue.PostMessage | src/message_queue.c:47-93 | the queue becomes the last `capacity` of its old contents and the new message; a displaced text is freed, the new one is a fresh copy |
| TuiQueue.TUIMessageQueue.PostTokenUpdate | src/message_queue.c:95-132 | the same for token counts, without a text |
| TuiQueue.TUIMessageQueue.Poll | src/message_queue.c:134-160 | delivers kind, text and priority of the oldest message and hands its text over |
| TuiQueue.TUIMessageQueue.WaitPass | src/message_queue.c:162-193 | one pass of a wait: deliver, else report shutdown, else wait |
| TuiQueue.TUIMessageQueue.FreeAll | src/message_queue.c:206-222 | afterwards every text ever copied was handed out or freed, once |
| TuiQueue.OneOwner | src/message_queue.c:47-160 | a text buffer has exactly one owner: a live slot, a receiver, or the heap |
| Conversation.ConversationState.AddUserMessage | src/claude.c:4547-4586 | appends one user text unless the history is full |
| Conversation.ConversationState.AddAssistantMessage | src/claude.c:4589-4727 | appends text and well-formed calls of a provider message; nothing when there is neither |
| ConversationRepair.StoredCallsExactly | src/claude.c:4612-4720 | of a provider message exactly the tool calls with a function and a string id are stored, in order, with id, name and parsed arguments |
| Conversation.ConversationState.AddToolResults | src/claude.c:4761-4781 | appends the results as one user message unless the history is full |
| Conversation.ConversationState.Clear | src/claude.c:4787-4825 | keeps only a leading system message |
| Conversation.ConversationState.EnsureToolResults | src/openai_messages.c:20-130 | the table-driven loops compute the repair |
| ConversationRepair.RepairAnswers | src/openai_messages.c:20-130 | the repaired history answers every call if and only if there was room for a message or it did already |
| ConversationRepair.RepairExtends | src/openai_messages.c:84-127 | repair only appends, at most one message, and never past the limit |
| ConversationRepair.ScanIsExact | src/openai_messages.c:33-74 | the table lists the calls and marks exactly those that are the first with their id and have a later result |
| ConversationRepair.RepairInjectsExactly | src/openai_messages.c:94-127 | exactly one result is injected per unanswered call, in call order, if and only if the history is full or no answered call repeats an earlier id |
| ConversationRepair.RepairInjectsOnePerUnanswered | src/openai_messages.c:94-127 | in particular with distinct ids |
| ConversationRepair.InjectedSayInterrupted | src/openai_messages.c:100-118 | every injected result is an error that says the tool was interrupted, under id and name of a call of the history |
| ConversationRepair.RepairIdempotentExactly | src/openai_messages.c:20-130 | repairing twice equals repairing once if and only if all call ids are distinct or there is no room for a second message |
| ConversationRepair.RepeatedIdNeverSettles | src/openai_messages.c:63-70 | if two calls of a history share an id, every single repair appends a message until the history is full |
| ConversationRepair.DistinctIdsSettle | src/openai_messages.c:20-130 | with distinct ids any number of repairs is one repair |
| ConversationRepair.RepeatedId | src/openai_messages.c:63-70 | a three-message history that every repair extends |
| ConversationRepair.FullHistoryUnanswered | src/openai_messages.c:84-92 | a full history whose last call stays unanswered |
| OpenAiRequest.BuildRequest | src/openai_messages.c:135-297 | building a request repairs the history and converts each message of the result |
| OpenAiRequest.ConvertMessage | src/openai_messages.c:168-294 | one history message becomes its request messages, with a cache mark on the newest only |
| CacheMarks.MarksExactly | src/openai_messages.c:168-231 | without caching no message holds a mark; with it exactly the system texts and the user texts of the newest message become one marked block each, and every other message stays the same |
| CacheMarks.SystemTextIsSent | src/openai_messages.c:174-199 | a system message sends its first text that has a value |
| RequestShape.RequestsAreWellFormed | src/openai_messages.c:168-297 | whatever the history, every message of a request has the members the chat format asks for, with typed calls and never an empty list of them |
| RequestProofs.HistoryAndRequestAgree | src/openai_messages.c:168-297 | request and history agree on which calls are answered later |
| RequestProofs.EveryRequestAnswersItsCalls | src/openai_messages.c:135-297 | in the request built from any history each emitted call id is followed by a tool message with that id, if and only if there was room for one more message or all calls had results |
| AnthropicAnswers.AnthropicAnswersItsCalls | src/anthropic_provider.c:111-209 | after repair, conversion and translation of any history each tool use on the wire is followed by a tool result with its id, if and only if there was room for one more message or all calls had results |
| AnthropicShape.TranslationsAreWellFormed | src/anthropic_provider.c:111-209 | whatever the history, tool uses stand only in assistant messages, behind at most one text, and have an input; tool results stand only in user messages; assistant messages are never empty |
| AnthropicShape.UserPassesUnchanged | src/anthropic_provider.c:174-182 | a user message is passed on with the very same content, cache marks included |
| Translation.ToAnthropic | src/anthropic_provider.c:111-209 | the message loop computes the Anthropic message list |
| BedrockTranslation.ToBedrock | src/aws_bedrock.c:1014-1189 | the second converter's loops, with images rewritten and missing arguments replaced, compute its own message list |
| BedrockTranslation.ImageKeptExactly | src/aws_bedrock.c:878-941 | an image with a data URL keeps its media type and its data if and only if the type holds no semicolon |
| BedrockTranslation.ImageGrammar | src/aws_bedrock.c:878-941 | exactly which URLs are rewritten to an image, with which type and data |
| BedrockTranslation.OtherBlocksPass | src/aws_bedrock.c:949-980 | blocks that are no images are passed on in order, and no image keeps the form it came in |
| Translation.FromAnthropic | src/anthropic_provider.c:260-340 | first text and all tool uses of a response become the message of a single choice, with the token usage beside it |
| Translation.UsageIsPassedOn | src/anthropic_provider.c:327-336 | input and output token counts appear as prompt and completion counts, as far as they are numbers |
| TranslationRoundTrip.PlainAnswerIsStored | src/anthropic_provider.c:285-291 | a response whose content is a plain string is stored as that text |
| MeaningExact.OpenAiPreservesMeaningExactly | src/openai_messages.c:168-297 | the request says block by block what the history says (user texts, non-empty assistant texts, tool uses with id, name and input, tool results with id and content, images), if and only if user messages have only texts and results, and assistant messages only texts and calls with nothing but texts without a value before a non-empty text |
| MeaningExact.AnthropicPreservesMeaningExactly | src/anthropic_provider.c:111-209 | so does its Anthropic translation, if and only if also every tool result has an id |
| MeaningExact.StoredMessageIsSayable | src/claude.c:4589-4727 | whatever the provider answers, the message stored for it loses nothing |
| MeaningExact.RepairIsSayable | src/openai_messages.c:94-127 | repairing neither adds nor removes a reason for a loss |
| MeaningExact.ImageIsNotSent | src/openai_messages.c:201-243 | a user message with an image loses it |
| MeaningExact.TextBehindEmptyIsLost | src/openai_messages.c:244-294 | an assistant text behind an empty one is lost |
| TranslationRoundTrip.BedrockAgreesExactly | src/aws_bedrock.c:1014-1189 | both converters, each defined on its own, yield the same list on a request of `build_openai_request` if and only if it has no plain empty user text and no tool result without id |
| TranslationRoundTrip.EmptyLineIsDropped | src/aws_bedrock.c:1116-1140 | an empty user line is a request on which they differ |
| TranslationRoundTrip.EchoIs | src/anthropic_provider.c:129-173 | what an assistant message becomes when it is sent out, echoed and stored again |
| TranslationRoundTrip.EchoUnchangedExactly | src/anthropic_provider.c:260-326 | it comes back unchanged if and only if it is at most one non-empty text and then tool calls with ids |
| TranslationRoundTrip.EchoIsCanonical | src/anthropic_provider.c:129-326 | whatever comes back is of that form, so a second trip changes nothing |
| TranslationRoundTrip.StoredIsCanonical | src/claude.c:4589-4727 | what the history stores of any provider message is of that form unless the text is empty |
| TranslationRoundTrip.EmptyAnswerIsLost | src/claude.c:4589-4727 | an empty answer is stored and does not come back |
| Text.FindMissesNothing | src/patch_parser.c:46-49 | the substring search finds the first occurrence |
| Text.TrimWhitespace | src/patch_parser.c:20-39 | the trimming loops compute the trimmed text |
| PatchParser.FindClosing | src/patch_parser.c:131-146 | the character loop finds the first line that starts with @@ |
| PatchParser.ParseOneOperation | src/patch_parser.c:73-250 | the loops compute the parse of one block |
| PatchParser.ParsePatch | src/patch_parser.c:253-346 | counting the markers and then parsing block by block computes the parse of the document |
| PatchParser.OneBlockPerMarker | src/patch_parser.c:276-281 | the counting loop counts exactly the blocks |
| PatchGrammar.BlockGrammar | src/patch_parser.c:73-250 | the exact grammar of a block: it is accepted if and only if it has a file marker, a path, an opening marker, lines and a closing marker at a line start; the operation has the trimmed path, the lines behind - joined by newlines as old text and those behind + as new text |
| PatchGrammar.OtherLinesSayNothing | src/patch_parser.c:183-236 | inserting an empty line, or one with neither prefix, anywhere in a hunk changes nothing |
| PatchDocuments.BlocksAreCuts | src/patch_parser.c:307-341 | the blocks are the one way to cut the text at its file markers, each reaching to the next |
| PatchDocuments.DocumentGrammar | src/patch_parser.c:253-346 | a document is accepted with given operations if and only if it spells them out in well-formed blocks between the first start marker and the end marker behind it |
| PatchDocuments.RejectionsExplained | src/patch_parser.c:60-338 | which of the four errors a rejected document gets |
| PatchRoundTrip.OperationRoundTrip | src/patch_parser.c:73-250 | a printed operation with a trimmed one-line path is parsed back, whatever blank lines and final newlines its texts have |
| PatchRoundTrip.PrintThenParse | src/patch_parser.c:253-346 | printing printable operations and parsing the document returns exactly them |
| PatchExact.ParseGivesPrintable | src/patch_parser.c:253-346 | whatever document is parsed, the operations have trimmed one-line paths and texts free of the end and file markers |
| PatchExact.RoundTripExactly | src/patch_parser.c:42-346 | printing and parsing returns the operations if and only if there is one and all are printable |
| PatchExact.ReprintKeepsMeaning | src/patch_parser.c:253-346 | printing a parsed document and parsing again gives the same operations |
| PatchApply.FileSystem.Apply | src/patch_parser.c:365-469 | operations are applied in order up to the first failing one, whose error is returned |
| PatchApply.ReplacesFirstOccurrence | src/patch_parser.c:404-436 | a successful operation replaces the first occurrence of the old text and nothing else |
| PatchApply.OtherFilesKept | src/patch_parser.c:377-459 | files that no operation names keep their content; no file appears or disappears |
| PatchApply.ApplyInParts | src/patch_parser.c:377-459 | applying a patch in two parts is applying it whole |
| PatchApply.FailureKeepsPrefix | src/patch_parser.c:393-456 | a failure leaves exactly the effect of the operations before it: no rollback |
| PatchApply.FailsExactly | src/patch_parser.c:383-456 | a patch fails with a given error if and only if an operation meets that reason in the files left by those before it, which all succeeded |
| PatchApply.UndoneExactly | src/patch_parser.c:404-436 | the reversed operation restores the files if and only if the new text first occurs where it was put |
| ReplaceAll.StrReplaceAll | src/claude.c:1895-1931 | both loops agree on the occurrences; the result is the pieces joined by the new text, written inside a buffer of the computed size; none when there is no occurrence |
| ReplaceAll.PiecesAreLeftmost | src/claude.c:1900-1903 | the pieces are the leftmost non-overlapping split |
| ReplaceAll.LeftmostSplitIsUnique | src/claude.c:1900-1903 | there is only one such split |
| ReplaceAll.LengthExactWhenItFits | src/claude.c:1910-1913 | the size computed modulo 2^64 is the size of the result if and only if that fits a machine word |
| ReplaceAll.LoopsEndExactly | src/claude.c:1900-1903 | the counting and copying loops end if and only if the pattern is not empty |
| Base64.Base64Encode | src/base64.c:33-73 | the index loops with the overwritten padding compute the encoding |
| Base64.Base64Decode | src/base64.c:75-125 | skipping padding and writing at most the computed number of bytes computes the decoding |
| Base64Proofs.DecodeEncode | src/base64.c:33-125 | decoding the encoding of any bytes returns them with their exact length |
| Base64Proofs.EncodeIsRfc4648 | src/base64.c:33-73 | the encoder regroups the bits into sixes and pads as section 4 of RFC 4648 prescribes |
| Base64Proofs.TableIsAlphabet | src/base64.c:10-19 | the table is the alphabet of section 4 of RFC 4648 |
| Base64Decoding.UntableExactly | src/base64.c:22-31 | the decoding table inverts it and takes any other character for 0 |
| Base64Decoding.DecodeRegroups | src/base64.c:75-125 | decoding any text skips the padding at its end, takes six bits from every other character and regroups them into bytes, dropping an incomplete last one |
| HistoryFile.EscapeNewlines | src/history_file.c:110-143 | the two passes fill a buffer of the counted size with the escaped text |
| HistoryFile.UnescapeNewlines | src/history_file.c:150-185 | the two passes fill a buffer of the counted size with the unescaped text |
| HistoryFile.History.AppendEntry | src/history_file.c:187-205 | a non-empty text becomes one escaped line |
| HistoryFile.History.Load | src/history_file.c:207-279 | the index loops return the entries of the last lines |
| HistoryFileProofs.EscapeRoundTripExactly | src/history_file.c:110-185 | escaping is undone if and only if the text has no backslash directly followed by n |
| HistoryFileProofs.AppendedLines | src/history_file.c:187-205 | each appended non-empty text adds its own line |
| HistoryFileProofs.LoadGivesLastTextsExactly | src/history_file.c:187-279 | appending any texts to an empty file and loading returns the last non-empty ones in order if and only if each of these survives storing |
| HistoryFileProofs.LoadOfAnyFile | src/history_file.c:207-279 | loading any file, whoever wrote it, gives the entries of its last lines: an unfinished line counts, empty lines count for the limit, one final carriage return is cut off |
| HistoryFileProofs.UnescapeExactly | src/history_file.c:150-185 | unescaping turns the first backslash-n pair into a newline, goes on behind it, and leaves text without a pair alone |
| HistoryFileProofs.AppendsOnly | src/history_file.c:187-205 | appending never touches what is there |
| HistoryFileProofs.LostTexts | src/history_file.c:110-279 | two texts that do not survive |
| PasteMachine.PasteState.ProcessChar | src/paste_handler.h:284-340 | one character on the buffer does what the machine on values does |
| PasteMachine.NormalTextPasses | src/paste_handler.h:284-318 | text without escape characters is reported as normal and not buffered |
| PasteMachine.FullStaysFull | src/paste_handler.h:148-158 | with a full buffer every further character overflows and the paste never ends |
| PasteMachine.PasteDeliveredExactly | src/paste_handler.h:284-340 | start sequence, body and end sequence report 2 ... 1, 2 ... 3 and leave exactly the body, if and only if body and end sequence fit the buffer |
| PasteMachine.EscapeDecidedExactly | src/paste_handler.h:288-318 | outside a paste an escape, four further characters and any escapes are held back, and the next character starts a paste if and only if it completes the start sequence behind a single escape; else all is forgotten |
| PasteMachine.PasteBehindEscapeIsMissed | src/paste_handler.h:288-318 | a start sequence right behind an escape character is not recognised |
| Sanitizer.SanitizeInPlace | src/paste_handler.h:164-226 | the in-place loops, for all options, compute the sanitised text without writing ahead of the read position |
| SanitizerPipeline.SanitizeIsPipeline | src/paste_handler.h:164-226 | for every text and all options the single pass equals a chain of simple passes: trim left, unify line ends, filter, keep two newlines of a run, trim right |
| SanitizerProofs.SanitizeIsTidy | src/paste_handler.h:164-226 | the default result has only printable characters, tabs and newlines, at most two newlines in a row, and no whitespace at its end |
| SanitizerProofs.SecondPassTrims | src/paste_handler.h:164-226 | a second pass only removes leading whitespace |
| SanitizerProofs.FixedAfterTwoPasses | src/paste_handler.h:164-226 | a fixed point is reached after at most two passes |
| SanitizerProofs.EmptyExactly | src/paste_handler.h:164-226 | the result is empty if and only if no character is visible |
| SanitizerProofs.OnePassEnoughExactly | src/paste_handler.h:164-226 | one pass is enough if and only if no whitespace follows the leading whitespace and the removed characters, or nothing is visible |
| SanitizerProofs.TwoPassesNeeded | src/paste_handler.h:164-226 | a control byte before a space needs two passes |
| LineEditor.NCursesInput.InsertChar | src/ncurses_input.c:125-148 | inserts at the cursor, doubling the buffer when needed; text, terminator and capacity stay consistent |
| LineEditor.NCursesInput.EraseRange | src/ncurses_input.c:151-210 | moving the tail left removes exactly the range |
| LineEditor.NCursesInput.CompleteWith | src/ncurses_input.c:676-722 | a single completion replaces the current word up to the cursor |
| LineEditor.NCursesInput.Load | src/ncurses_input.c:532-538 | a history entry is shown whole: entries always fit the buffer |
| LineEditor.NCursesInput.PressKey | src/ncurses_input.c:490-742 | every key on the buffer does what it does on a text with a cursor |
| LineEditor.NCursesInput.ReadLine | src/ncurses_input.c:461-753 | over any sequence of keys the buffer holds what the keys make of a text with a cursor, with terminator, capacity and cursor consistent; Enter returns that text and files it in the history |
| LineEditor.NCursesInput.Submit | src/ncurses_input.c:747-752 | the line is returned and added to the history |
| LineEditorZipper.KeysAreZipper | src/ncurses_input.c:490-742 | any run of editing keys does on the line what it does on the two texts around the cursor, and leaves the place in the history alone |
| LineEditorProofs.WordBackExactly | src/ncurses_input.c:26-47 | back-word goes to the last word start before the cursor, exactly unless that is index 1, when it goes to 0 |
| LineEditorProofs.WordAtOneIsSkipped | src/ncurses_input.c:26-47 | a line whose only word is skipped |
| LineEditorProofs.WordForwardExactly | src/ncurses_input.c:50-67 | forward-word goes to the next word start, or to the end |
| LineEditorProofs.NavigationIsClampedIndex | src/ncurses_input.c:520-571 | any run of Up and Down keys is an index into history and draft kept within its bounds, with the cursor at the end of what is shown, and restores the draft exactly |
| LineEditorProofs.HistoryIsNewestDistinct | src/ncurses_input.c:84-107 | over every run the history is the newest 100 lines that differ from the one before, with no equal neighbours |
| LineEditorProofs.TypingInserts | src/ncurses_input.c:125-148 | typing any text puts it in at the cursor |
| LineEditorProofs.TypingIsUndone | src/ncurses_input.c:125-176 | typing any text anywhere and erasing as many characters restores line, cursor and history position |
| Capacity.CalculateCapacity | src/array_resize.c:29-172 | all strategies compute the capacity without any intermediate value leaving the machine word |
| Capacity.CalculateExactly | src/array_resize.c:29-172 | for every strategy the exact result: what the strategy aims at as an unbounded number, cut to the limit and raised to the minimum, or a failure if and only if there is no need, one above the limit, or an aim that does not fit a machine word |
| Capacity.OverflowChecksExact | src/array_resize.h:46-59 | the overflow checks report exactly the overflows |
| Capacity.Enough | src/array_resize.c:29-172 | a success has room for what is needed and never shrinks |
| Capacity.WithinLimitExactly | src/array_resize.c:156-170 | a growing success stays within the maximum if and only if the minimum does |
| Capacity.MinimumBeatsMaximum | src/array_resize.c:156-170 | a configuration with a minimum above the maximum gets the minimum |
| Capacity.DoubleUpIsLeast | src/array_resize.c:70-93 | doubling gives the least power-of-two multiple that is large enough and fails exactly when that does not fit |
| Capacity.CopiesAreLinear | src/array_resize.c:70-93 | with the default configuration, growing one by one to n elements copies fewer than 2n |
| Capacity.Growable.EnsureCapacity | src/array_resize.c:174-227 | exactly when it succeeds; the elements are kept, the bytes addressable, and nothing changes on failure |
| Capacity.Growable.Append | src/array_resize.c:229-290 | exactly when it succeeds; then the bytes stand behind the used part with room for a terminator, and on failure nothing changes |
| RetryLoop.CallWithRetries | src/claude.c:3977-4183 | the loop ends on every possible sequence of answers and clock readings and computes its outcome and the number of calls |
| RetryLoop.ReportsLastAttempt | src/claude.c:3977-4183 | read off the script alone: the loop ends at the first attempt that is not retried, with the outcome of that attempt (success, refusal, interrupt or deadline), having called the provider in every one before |
| RetryLoop.ElapsedRounds | src/claude.c:4000-4002 | the elapsed milliseconds are the true ones rounded down or up |
| RetryLoop.ElapsedMonotone | src/claude.c:4000-4002 | a later reading never shows fewer milliseconds |
| RetryLoop.TruncatedSleepReachesDeadlineExactly | src/claude.c:4125-4140 | after a sleep cut short to the remaining time the deadline always shows as passed if and only if the maximum is under a second or of whole seconds |
| RetryLoop.SleepsStayWithinMaximum | src/claude.c:4125-4140 | every sleep is positive, starts with elapsed + delay within the maximum, and lasts more than three quarters of the backoff unless cut short |
| RetryLoop.NextBackoff | src/claude.c:4175-4178 | the backoff stays between 1000 and 60000 |
| RetryLoop.AtMostNineteenCalls | src/claude.c:3977-4183 | with the default 600000 ms the provider is called at most 19 times and the loop ends by its twentieth iteration |
| RetryLoop.NineteenCallsHappen | src/claude.c:3977-4183 | a possible run in which nineteen calls are made |
| RetryLoop.EndsAtAll | src/claude.c:3977-4183 | for every maximum, every possible sequence of answers and clock readings longer than the maximum ends the loop |
| RetryLoop.RoundingHidesDeadline | src/claude.c:4000-4002 | for every other maximum, clock readings at which it is missed by one millisecond |

## Left out

- HTTP, request signing, credentials, the MCP processes, SQLite, drawing, spinners, logging: foreign effects or user interface.
- The system prompt, model, token limits and tool definitions in the two request converters: they are copied member by member, and the meaning of a history leaves the system prompt out.
- `build_request_json_from_state` (`src/claude.c:3592-3790`), a second request builder without a repair, which the Bedrock provider uses (`src/bedrock_provider.c:434`): the two converters are compared on the requests of `build_openai_request`.
- `parse_openai_response`: nothing calls it; the history stores responses through `add_assistant_message_openai`. Without a caller in `src/`, yet modelled, are `paste_process_char`, `paste_sanitize`, `ncurses_input_readline`, `wait_tui_message` and `buffer_append`. The editor of `src/tui.c` is not modelled.
- Allocation failure, the failure of `tool_tracker_init`, and mutex failures: every allocation and lock succeeds. Growing buffers of the patch parser are strings.
- Cancellation of a thread inside a queue wait or while it holds a mutex: queue passes are not cancelled. Progress callbacks and logging have no effect on the protocol.
- JSON text syntax, member order and duplicate members. cJSON looks member names up without regard to case; the model compares them exactly.
- A provider message whose tool call has no function name makes `add_assistant_message_openai` read through a null pointer (`src/claude.c:4662`); the model stores a call without a name.
- Reclaiming memory: only the ownership of queued texts is modelled.
- A `/clear` between a call and its result leaves a result without a call: only "every call has a later result" is claimed.
- ReplaceAll.StrReplaceAll: requires a non-empty pattern, because the loops never end on an empty one, and a result shorter than 2^64, because the C program could not address a longer one.
- RetryLoop.CallWithRetries: takes answers and clock readings from a finite script longer than the maximum; that it never needs more is part of the proof.
- LineEditor.NCursesInput.PressKey: the completer is foreign; its answer is part of the key, as strings without NUL.
- LineEditor.NCursesInput.ReadLine: the same for each of its keys.
- `int` counters in `str_replace_all` and the line editor: they do not overflow for texts below 2 GiB.
- The time-based paste detection and the paste preview; window sizes and redraws of the editor.
- `usleep` is taken to sleep at least as long as asked; sizes in `base64.c` are unbounded.
- The timed wait of the tool launcher is a step that may end at any time; signals of the tracker's condition variable only shorten it.
