# Serpe, modelled and proved in Dafny

Serpe runs language-model agents: it runs tools under a scheduler, accounts for every byte a tool
returns until it is stored, projects long tool histories into bounded model requests, drives a
run as a pull machine that may be closed at any time, and keeps sessions in a store that can be
migrated in place. This project models that logic and proves what it promises.

`dafny verify dfyconfig.toml` checks the whole project.

How the code maps to the modules:

- **Tool scheduler.** `Claims` (resource claims), `Coordinator` (the shared object, one method per
  locked section), `CoordState` (the same sections as steps on a value), `Scheduler` (the
  interleaved system and its invariant), `SchedulerRuns`, `FairQueue` and `Deadlock` (theorems over
  whole runs), `Batch` (slots, events and ticket release of one batch).
- **Bytes of a tool output.** `Utf8`, `Escape`, `Window`, `Collector` (bounded collection of a raw
  stream), `Int64`, `Frame` and `FrameReads` (the hashed frame and its reader), `Marker`,
  `CollectorOutput`, `Truncate`, `Finalize`, `Wire`, `WireMessage`, `WireForms` and `WireReads`
  (message JSON, its form and what it says), `Budget` (from the admission quota to the session
  ceiling), `Reserve` (the longest message a batch can store).
- **Request projection.** `ToolHistory`, `Projection`, `ProjectContext`, `Shortening`,
  `ProjectionText`, `ProjectedBodies`, `ProjectRequest`.
- **Runs and sessions.** `RunMachine`, `RunReports` (what a stopped run reports and why),
  `RunAccounts` (what its counters add up to), `Ledger`, `Leases` (per-ID leases and the turn
  commit), `Migration`, `Page`.
- **Events and canonical forms.** `Reducer`, `Replay`, `Json`, `JsonParser`, `JsonNumbers`,
  `JsonGrammar` (the texts it accepts), `JsonEscapes`, `JsonSays`, `JsonRoundTrip`, `JsonCanon`,
  `CanonicalBytes`.
- `Wrappers`, `Order`, `Sorting` and `Sets` hold shared basics.

Concurrent parts (scheduler, batch, run machine, leases) are state machines whose actions are the
sections the code runs under a lock, or the calls it makes between them; results range over every
sequence of enabled actions. Failing and stopping file operations are driven by an arbitrary
script of outcomes. SHA-256 is an arbitrary function of the exact bytes hashed.

## Results that differ from the documentation

- **Deadlock.** The scheduler can deadlock: a planned call without Activator may wait for a permit
  behind calls that hold all permits while their extension waits for it. `Deadlock.DeadlockFreeIff`
  gives the exact condition on the planned claim sets.
- **run_end after a failure.** The stream's documentation says that failures expose `Err` without a
  `run_end`. A run reports both exactly when a `Close` falls between the check of the context and
  the decision after a model turn, which takes the lock without checking again, and that decision
  stops the run (`RunReports.RunReportsBothIff`, `RunReports.ReachableCloseReportsBothIff`); for
  every request there is such a run (`RunReports.OverlappingCloseReportsBoth`). Every other
  overlap is harmless, and the documentation holds (`RunReports.FailuresHaveNoEnd`).
- **Reserved run budget.** The session-ceiling error after a batch cannot occur, but the check
  against the run's reserved budget can fail for an admitted batch, for two reasons: admission
  reserves the quota once where JSON escaping may cost six times as much
  (`Reserve.ControlCharactersExceed`), and it does not count the provider's state
  (`Reserve.ProviderStateExceeds`). `Reserve.TurnReserveIff` gives the exact condition, on the
  longest message the shares allow; `Reserve.HeaviestText` gives that length in closed form.
- **Shortened tool results.** The front and the back kept of a shortened result need not be a prefix
  and a suffix of its text: behind a text that had to be cut the scan goes on into the next one
  (`Shortening.FrontSkips`). `Shortening.FrontIsPrefixIff` and `Shortening.BackIsSuffixIff` give
  the exact condition.

## Model

| member | source | states |
|---|---|---|
| `Claims.ClaimsConflict` | core/tools/resource.go:58-76 | a reported conflict is always one; for a normalized second list true exactly when some resource is claimed by both sides and written by at least one, and for any list exactly when the last claim on the resource does |
| `Claims.NormalizeClaims` | core/tools/resource.go:15-35 | the result is the sorted, duplicate-free set with the stronger access per resource, or a refusal for a bad or too long list |
| `Claims.ValidClaimExactly` | core/tools/resource.go:37-56 | a claim is valid exactly when its resource has one to 4096 characters, none of them a control character |
| `Claims.ExtendClaims` | core/tools/resource.go:78-93 | for any base list, refused exactly when the lists are too long, hold an invalid claim, or read what was last claimed for writing; otherwise the normal form of both lists together |
| `Claims.ExtendableMeans` | core/tools/resource.go:78-93 | over a normalized base exactly the reads of a resource it writes are refused |
| `Claims.NormalDistinct` | core/tools/resource.go:28-34 | in a normalized list no resource occurs twice |
| `Claims.ExtensionKeepsConflicts` | core/tools/resource.go:78-93 | whatever conflicts with a base set conflicts with its extension |
| `Claims.ExtensionTouchesRoot` | core/tools/resource.go:78-93 | an extension still claims the root |
| `Coordinator.Coordinator.constructor` | core/tools/coordinator.go:42-54 | a new coordinator is the empty state with its number of permits |
| `Coordinator.Coordinator.AdvanceFrontier` | core/tools/coordinator.go:112-119 | the frontier moves to the first ticket whose claims are still unknown |
| `Coordinator.Coordinator.ClassifyOne` | core/tools/coordinator.go:70-85 | one call is sorted into pending, final or released by its own kind alone |
| `Coordinator.Coordinator.Classify` | core/tools/coordinator.go:68-85 | a batch gets consecutive tickets, each sorted by its own call |
| `Coordinator.Coordinator.RegisterBatch` | core/tools/coordinator.go:56-97 | refused exactly for an empty batch or exhausted tickets, without effect; otherwise the registration step |
| `Coordinator.Coordinator.Discover` | core/tools/coordinator.go:99-110 | claims of a pending ticket become final and the frontier moves on |
| `Coordinator.Coordinator.ClaimsFreeExcept` | core/tools/coordinator.go:258-282 | true exactly when neither a holder nor an earlier unreleased final set conflicts |
| `Coordinator.Coordinator.CanGrantNow` | core/tools/coordinator.go:182-193 | decides grantability of one waiter: permit, frontier and claims |
| `Coordinator.Coordinator.EarlierGrantable` | core/tools/coordinator.go:170-180 | true exactly when a waiter that came earlier could be granted |
| `Coordinator.Coordinator.Join` | core/tools/coordinator.go:133-140 | the waiter goes to the end of the queue |
| `Coordinator.Coordinator.RemoveWaiter` | core/tools/coordinator.go:195-205 | exactly one waiter leaves the queue, the others keep their order |
| `Coordinator.Coordinator.TryGrant` | core/tools/coordinator.go:141-166 | granted exactly when the waiter is the first grantable one; it then holds its claims and one permit |
| `Coordinator.Coordinator.GiveBackPermit` | core/tools/coordinator.go:207-214 | a planning permit is returned |
| `Coordinator.Coordinator.TryExtend` | core/tools/coordinator.go:218-238 | the held set is replaced exactly when the larger one is free |
| `Coordinator.Coordinator.Release` | core/tools/coordinator.go:240-256 | claims, permit and pending mark go, the ticket counts as released, the frontier moves on |
| `CoordState.BatchMember` | core/tools/coordinator.go:68-85 | after a registration each ticket is pending, final or released according to its own call, and older tickets are untouched |
| `Scheduler.AdmittedIsSeparate` | core/tools/coordinator.go:182-193 | a granted waiter conflicts with no holder and with no earlier unreleased final set |
| `Scheduler.RegisterKeeps` | core/tools/coordinator.go:56-97 | registering a batch keeps the scheduler invariant |
| `Scheduler.GrantTicketKeeps` | core/tools/coordinator.go:141-166 | granting keeps the state of every ticket consistent |
| `Scheduler.DiscoverKeeps` | core/tools/coordinator.go:99-110 | a discovery, however late, keeps holders separate and nobody overtaken |
| `Scheduler.ExtendKeeps` | core/tools/coordinator.go:218-238 | an extension keeps the scheduler invariant |
| `Scheduler.ReleaseKeeps` | core/tools/coordinator.go:240-256 | a release keeps the scheduler invariant |
| `Scheduler.StepKeeps` | core/tools/coordinator.go:56-282 | every step of every batch keeps the invariant: frontier, ticket states, no overtaking, disjoint holders, queue, capacity |
| `SchedulerRuns.ReachableInv` | core/tools/coordinator.go:56-282 | the invariant holds after every interleaving of any number of batches |
| `SchedulerRuns.RunningCallsNeverConflict` | core/tools/batch.go:356-478 | two calls inside Run at the same time never have conflicting final claims |
| `SchedulerRuns.RunKeepsFinal` | core/tools/coordinator.go:99-110 | final claims never change again in any run |
| `SchedulerRuns.RunsInTicketOrder` | core/tools/batch.go:356-478 | when a call starts to run, every earlier call whose claims turn out to conflict has been released, even if the conflict became known later |
| `SchedulerRuns.CapacityConserved` | core/tools/coordinator.go:133-166 | permits in use equal holders plus outstanding Plan calls and never exceed the limit |
| `SchedulerRuns.LowestIsNeverBlocked` | core/tools/coordinator.go:258-282 | claims never hold up the lowest unreleased ticket, neither at its grant nor at its extension |
| `SchedulerRuns.Progress` | core/tools/coordinator.go:133-193 | with safe plans and an unreleased call some productive step is enabled |
| `SchedulerRuns.SafePlansNeverDeadlock` | core/tools/batch.go:169-194 | no run that uses only safe plans deadlocks |
| `FairQueue.NobodyPassedOver` | core/tools/coordinator.go:141-180 | in every run a waiter can be granted exactly when a permit is free, the frontier has reached it and its claims conflict with nobody, while one of these fails for every waiter that arrived before |
| `FairQueue.GrantedInOrder` | core/tools/coordinator.go:168-180 | over every run the permit requests granted, in order, are in the order in which they arrived |
| `FairQueue.PermitsInOrder` | core/tools/coordinator.go:121-123 | of two permit requests granted one after the other the first had arrived before |
| `Deadlock.JamRunDeadlocks` | core/tools/coordinator.go:182-193 | the concrete run that deadlocks for an unsafe plan |
| `Deadlock.UnsafePlanJams` | core/tools/batch.go:169-194 | every unsafe planned set of a call without Activator has a claim that jams the scheduler |
| `Deadlock.DeadlockFreeIff` | core/tools/coordinator.go:112-193 | no interleaving deadlocks if and only if every planned set without Activator writes the root, or touches the root alone while two permits exist |
| `Batch.ChannelNeverFull` | core/tools/batch.go:549-558 | whoever sends an event finds room in the channel, so nothing waits and nothing is dropped |
| `Batch.InvariantKept` | core/tools/batch.go:349-558 | every step of every call keeps stage, slot, ticket and sent events in agreement |
| `Batch.AllAccounted` | core/tools/batch.go:549-558 | the events in the log are exactly those the calls sent |
| `Batch.DrainedBatch` | core/tools/batch.go:267-307 | a drained batch has released every ticket, every slot is finished, failed or skipped, and its events tell the same outcome |
| `Batch.BatchEnds` | core/tools/batch.go:267-307 | however calls, reader and cancellation interleave, a batch takes at most eight steps a call and one more, and stops only when the channel is closed and every event was taken |
| `Batch.PickFatal` | core/tools/batch.go:309-338 | the lowest index among real failures is chosen, among cancellations only when there is no other |
| `Utf8.CutClean` | core/tools/collector.go:485-514 | cutting valid text leaves valid text on one side exactly when it does on the other (section 4 of RFC 3629) |
| `Utf8.AlignDown` | core/tools/collector.go:485-496 | the longest prefix within a limit that is valid text |
| `Utf8.AlignUp` | core/tools/collector.go:502-514 | the start of the longest suffix within a limit that is valid text |
| `Utf8.SuffixOfSuffix` | core/tools/collector.go:275-281 | narrowing an aligned suffix gives the narrower aligned suffix of the whole text |
| `Escape.EscapeInTwo` | core/tools/collector.go:171-192 | escaping a stream in two pieces with the unfinished character carried over equals escaping it at once |
| `Escape.EscapeAtEnd` | core/tools/collector.go:171-192 | at the end of the stream the unfinished bytes are escaped one by one, which is the escape of the whole stream |
| `Escape.EscapeAllValid` | core/tools/collector.go:171-192 | the escaped stream is valid UTF-8 |
| `Escape.EscapeValidPrefix` | core/tools/collector.go:171-192 | the loop returns the escaped finished part and the unfinished rest, at most three bytes that begin a character |
| `Escape.EscapeBytes` | core/tools/collector.go:521-527 | every byte becomes its escape |
| `Escape.EscapedByteReads` | core/tools/collector.go:516-527 | an escaped byte is a reverse solidus, an x and two hexadecimal digits that read back as the byte |
| `Window.KeptIsBounded` | core/tools/collector.go:227-281 | the bounded view never exceeds its budget, is valid text, and is a head and a tail of the text |
| `Window.HeadSettles` | core/tools/collector.go:227-260 | the head no longer changes once the budget is exceeded |
| `Window.TailSlides` | core/tools/collector.go:260-281 | the kept tail and the new piece determine the next tail |
| `Collector.PrefixView` | core/tools/collector.go:485-496 | the longest aligned prefix |
| `Collector.SuffixView` | core/tools/collector.go:502-514 | the longest aligned suffix |
| `Collector.TextCollector.AppendHeadTail` | core/tools/collector.go:227-281 | afterwards the window is the bounded view of the longer text |
| `Collector.TextCollector.AcceptLogical` | core/tools/collector.go:194-225 | refused exactly when the total leaves 64 bits; otherwise window and hash have seen the piece |
| `Collector.TextCollector.ConsumeChunk` | core/tools/collector.go:138-169 | one chunk keeps window, hash and carried bytes in step with the raw stream; at most three bytes of an unfinished character are carried |
| `Collector.TextCollector.Write` | core/tools/collector.go:123-136 | the same for one write of any length |
| `Collector.TextCollector.FinishBody` | core/tools/collector.go:138-169 | at the end the window is the bounded view of the whole escaped stream |
| `Collector.Collect` | core/tools/collector.go:123-281 | for every way of splitting the raw bytes into writes the window is the whole escaped stream or its aligned head of half the budget and aligned tail of the rest |
| `Int64.Add64` | core/tools/limits.go:271-279 | the exact sum when it fits 64 bits, else nothing |
| `Int64.Mul64` | core/tools/limits.go:256-269 | the exact product of sizes or nothing; for other signs exactly which products are refused, and that the rest are the product wrapped to 64 bits |
| `Frame.OutputBytesSize` | core/tools/output.go:306-335 | the predicted frame size is the number of bytes hashed |
| `Frame.FramedBlockSize` | core/tools/output.go:306-335 | the size of one framed block, or nothing on overflow |
| `Frame.FeedPayload` | core/tools/output.go:637-645 | the chunk loop feeds exactly the chunked payload |
| `Frame.DigestBlocks` | core/tools/output.go:622-649 | the hash is fed exactly the output frame, refused only when its size overflows |
| `FrameReads.OutputReadsBack` | core/tools/output.go:622-691 | the frame that is hashed reads back as the output: number, order, kinds, media types, details and bytes of its blocks |
| `Frame.StreamHasher.WriteLogical` | core/tools/collector.go:555-582 | refused without effect after finish or on overflow; otherwise whole chunks are fed and the rest is pending |
| `Frame.StreamHasher.Finish` | core/tools/collector.go:591-610 | the bytes fed piece by piece are exactly those fed for the whole text at once |
| `Frame.SingleTextFrameSize` | core/tools/collector.go:114-121 | the frame size of one text block |
| `Marker.FormatMarker` | core/tools/output.go:599-602 | the marker has one length whatever numbers it names, and is ASCII |
| `Marker.MarkerNames` | core/tools/output.go:599-602 | the first number of the marker reads back as the kept size and the second as the original size, with the words around them |
| `CollectorOutput.MaxCollectorBody` | core/tools/collector.go:96-112 | the largest body that fits the limits beside its reserve |
| `CollectorOutput.TrailerNames` | core/tools/collector.go:459-470 | the trailer holds the metadata between its two lines and ends in their length |
| `CollectorOutput.FinishCollector` | core/tools/collector.go:307-383 | what a collector returns matches its receipt, stays within its limits, is valid UTF-8 and describes the whole stream; with a fitting body budget it always succeeds |
| `CollectorOutput.Assemble` | core/tools/collector.go:340-383 | the text is the head, a marker naming the final frame size and the original digest, the tail and the trailer |
| `Truncate.TextBoundaryBefore` | core/tools/output.go:541-558 | the last aligned cut at or before a target, over all text blocks |
| `Truncate.TextBoundaryAfter` | core/tools/output.go:560-580 | the first aligned cut at or after a target |
| `Truncate.FirstTextAtOrAfter` | core/tools/output.go:582-597 | the first text block that reaches the target |
| `Truncate.CutsNeverCross` | core/tools/output.go:436-446 | the head cut never lies behind the tail cut |
| `Truncate.RewrittenText` | core/tools/output.go:501-539 | the text afterwards is a prefix of the original, one marker and a suffix |
| `Truncate.RewrittenValid` | core/tools/output.go:501-539 | every text block stays valid UTF-8 |
| `Truncate.OthersUntouched` | core/tools/output.go:501-539 | blocks that are not text are unchanged and in place |
| `Truncate.ShapeIsSize` | core/tools/output.go:436-480 | the size predicted from lengths is the frame size of the rewritten blocks |
| `Truncate.TruncatedShapeSize` | core/tools/output.go:436-480 | the scan returns the frame and text sizes the rewritten blocks will have, for any amount to keep |
| `Truncate.BlocksFrameSize` | core/tools/output.go:482-499 | the frame size of a list of blocks, or nothing on overflow |
| `Truncate.ApplyKeep` | core/tools/output.go:501-539 | the loop performs the specified rewriting, for any amount to keep |
| `Truncate.NothingFitsFirst` | core/tools/output.go:404-435 | if any kept amount fits, keeping nothing but the marker fits |
| `Truncate.OneTextMonotone` | core/tools/output.go:404-421 | with one text block, what fits for an amount fits for every smaller one |
| `Truncate.SearchKeep` | core/tools/output.go:408-421 | the binary search finds a fitting amount exactly when one exists; with one text block the largest |
| `Truncate.TruncateBlocks` | core/tools/output.go:404-434 | succeeds exactly when a marker alone fits; the result is within both limits and its marker names its own frame size; with one text block no larger amount fits |
| `Finalize.Preflight` | core/tools/output.go:261-304 | passes exactly when tags are short, metadata and image bytes are within their limits and the frame is under the inspection ceiling; says which of these an over-budget output breaks |
| `Finalize.InspectContent` | core/tools/output.go:204-259 | passes exactly for one to the allowed number of blocks of sound structure whose texts are valid UTF-8 and whose images pass format, detail, width, height and pixel checks; else the first failing block decides between over budget and invalid |
| `Finalize.JudgeExactly` | core/tools/output.go:216-259 | a block passes exactly when it is valid text, or a readable image with a known detail within width, height and pixels; and it is invalid rather than over budget exactly when the image cannot be read or asks for an unknown detail |
| `Finalize.VerifyReceipt` | core/tools/output.go:137-159 | true exactly when limits, error flag, frame size and digest match the receipt |
| `Finalize.FinalizeOutput` | core/tools/output.go:68-135 | a sealed output is within the frame limit with honest statistics; the outcome is settled by content, limits and receipt in every case |
| `Finalize.BudgetOutput` | core/tools/output.go:180-187 | the fixed output always seals under the smallest limits a call can have |
| `Finalize.CollectorAccepted` | core/tools/output.go:68-159 | whatever a collector hands over under the same limits is sealed unchanged |
| `Wire.BodySize` | internal/sessionwire/message.go:156-208 | escaping costs at most six bytes per byte |
| `Wire.StringRoundTrip` | internal/sessionwire/message.go:156-208 | an encoded string reads back as the text, for all valid text (section 7 of RFC 8259) |
| `WireForms.AsciiForms` | internal/sessionwire/message.go:161-187 | a character of ASCII stands for itself, or has its escape of two characters, or one with two digits |
| `WireForms.OtherForms` | internal/sessionwire/message.go:188-204 | every other character stands for itself, but for U+2028 and U+2029 |
| `WireForms.NoSeparators` | internal/sessionwire/message.go:193-201 | wherever one looks in a written string, there is no line or paragraph separator |
| `Wire.FragmentEncoder.Write` | internal/sessionwire/message.go:130-146 | counts exactly what is written and fails when the count overflows |
| `Wire.FragmentEncoder.String` | internal/sessionwire/message.go:156-208 | writes the JSON string, flushing plain stretches in one go; invalid text fails |
| `Wire.FragmentEncoder.BlockContent` | internal/sessionwire/message.go:217-263 | writes the JSON of a text or inline image |
| `Wire.FragmentEncoder.ResultContent` | internal/sessionwire/message.go:276-300 | writes the JSON of a tool result after validation |
| `WireMessage.Content` | internal/sessionwire/message.go:217-303 | writes the JSON of any content: text, reasoning, refusal, linked or inline image, tool call, tool result; whatever validation refuses fails |
| `WireMessage.MessageFragmentSize` | internal/sessionwire/message.go:52-61 | the length of the JSON of any user or assistant message without building it, or nothing when it is invalid or too long |
| `WireMessage.ResultsMessage` | runtime/loops/message_budget.go:101-112 | the message of a batch of results is a user message like any other |
| `WireReads.MessageReads` | internal/sessionwire/message.go:29-50 | the JSON of every message parses to the value that holds each content with every field under its name |
| `WireReads.Base64RoundTrip` | internal/sessionwire/message.go:236-251 | the text of an inline image decodes to its bytes (section 4 of RFC 4648) |
| `Wire.BlockCost` | internal/sessionwire/message.go:217-263 | a block and a comma cost less than six times its frame |
| `Budget.AllocateCallQuotas` | core/tools/limits.go:227-254 | refused exactly below the reserve; shares sum to at most the batch quota, each is at least the reserve or the output limit, they differ by at most one, and each is the stated function of its position |
| `Budget.ToolExchangeAdmission` | runtime/loops/message_budget.go:63-91 | admitted exactly when the fixed part fits everywhere, with each refusal characterized; six times the quota then fits under the ceiling beside it, and the quota is the least of the three remainders |
| `Budget.ResultsCost` | runtime/loops/message_budget.go:101-112 | the stored results cost at most the minimum message and six times their frames |
| `Budget.SessionCeilingHolds` | runtime/loops/stream.go:571-580 | an admitted batch kept within its shares makes a message under the session ceiling |
| `Budget.CheckStored` | runtime/loops/stream.go:566-595 | each verdict of the last check is given exactly under its condition, with provider state and 32 bytes in the second comparison |
| `Budget.FinalizeCall` | core/tools/batch.go:465-478 | an output that fits goes through as it is; one over budget is replaced by one that fits; whatever is returned is within every limit and adds no image |
| `Budget.ToolTurn` | runtime/loops/stream.go:413-454 | over admission, shares, finalization and the final checks the ceiling error is unreachable, whatever the tools return; the batch starts exactly when some number that covers 1024 bytes per call is within every limit of the turn, and then ends as the check of outputs within their shares does |
| `Budget.StoredAnswers` | runtime/loops/stream.go:514-600 | a stored turn answers every call in its place, under its ID and name, with its output as settled within its share |
| `Budget.QuotaIsLargest` | runtime/loops/message_budget.go:63-97 | the quota of a turn is the largest number within the ceiling, what is left of the run, and each positive limit |
| `Reserve.SharesUseQuota` | core/tools/limits.go:227-254 | the shares of a turn use all of that largest number, unless one output may not take its share |
| `Reserve.HeaviestBounds` | internal/sessionwire/message.go:217-303 | no output of valid texts and given images within a share has a longer JSON form than the heaviest one |
| `Reserve.HeaviestAttained` | internal/sessionwire/message.go:217-303 | some output within the share is as long |
| `Reserve.HeaviestText` | core/tools/output.go:306-335 | without images, and when the text limit does not bind or there is one block, the heaviest output is one text of control characters filling the share |
| `Reserve.ReserveNeverExceededIff` | runtime/loops/stream.go:581-595 | all outputs within their shares pass both comparisons if and only if the longest message fits the retained remainder, and with provider state and 32 bytes the canonical one |
| `Reserve.TurnReserveIff` | runtime/loops/stream.go:413-454 | no turn of a started batch, whatever its tools return, fails for its reserved budget if and only if that condition holds before the calls run |
| `Reserve.ReserveHolds` | runtime/loops/stream.go:581-595 | enough for any outputs: six times the quota in both remainders, beside provider state and 32 bytes in the second |
| `Reserve.ControlCharactersExceed` | runtime/loops/stream.go:592-595 | a turn admitted with a quota of 1024 bytes and no provider state is refused when its call returns 400 to 900 control characters |
| `Reserve.ProviderStateExceeds` | runtime/loops/message_budget.go:40-48 | a turn is refused for an empty text, however much is left, when the provider state is as large as what is left |
| `ToolHistory.MatchingExchange` | runtime/loops/context_tools.go:597-613 | true exactly when call IDs are distinct and the results answer every call once |
| `ToolHistory.ValidateToolHistory` | runtime/loops/context_tools.go:361-377 | accepts exactly histories in which calls and results pair up position by position |
| `ToolHistory.ValidIsPaired` | runtime/loops/context_tools.go:361-377 | with fitting roles these are exactly lists of ordinary messages and exchanges |
| `ToolHistory.ToolExchangeSpans` | runtime/loops/context_tools.go:551-575 | the exchanges of any history; of a well-paired one every calling message |
| `ToolHistory.SpansExact` | runtime/loops/context_tools.go:551-575 | they are answered, do not overlap, and leave out only what overlaps an earlier one |
| `ToolHistory.PartsAddUp` | runtime/loops/context_tools.go:577-595 | every call and every result of a message is found, in order |
| `Projection.DropFirstShape` | runtime/loops/context_tools.go:144-162 | dropping keeps the newest exchanges with calls next to results and the other messages in order, with one summary added |
| `Projection.RemoveDropped` | runtime/loops/context_tools.go:144-162 | the marking and copying loops perform exactly that |
| `ProjectionText.FairAllowances` | runtime/loops/context_tools.go:277-320 | allowances sum to at most the budget; a cut result leaves nothing unspent, nobody gets more than one byte beyond its share, and the bytes over go to the later ones |
| `ProjectionText.FairShowsAll` | runtime/loops/context_tools.go:277-320 | what fits the budget as a whole is shown as a whole |
| `ProjectionText.LaterCallNoLess` | runtime/loops/context_tools.go:277-320 | when two results are cut, that of the later call gets no less |
| `Shortening.TextPrefix` | runtime/loops/context_tools.go:491-511 | returns what the scan from the front keeps |
| `Shortening.FrontIsPrefixIff` | runtime/loops/context_tools.go:491-511 | that is a prefix of the whole text if and only if no text behind a cut one starts with a character that fits the gap; then it is the longest prefix of whole characters within the limit |
| `Shortening.TextSuffix` | runtime/loops/context_tools.go:513-536 | returns what the scan from the back keeps |
| `Shortening.BackIsSuffixIff` | runtime/loops/context_tools.go:513-536 | that is a suffix of the whole text if and only if no text before a cut one ends with a character that fits the gap; then it is the longest suffix of whole characters within the limit |
| `Shortening.OneTextKept` | runtime/loops/context_tools.go:491-536 | with one text block the scans keep the longest prefix and the longest suffix |
| `Shortening.FrontSkips` | runtime/loops/context_tools.go:491-511 | the two texts for which the front is no prefix |
| `Shortening.CompactText` | runtime/loops/context_tools.go:444-489 | unchanged when it fits; else the first text becomes the front, the marker with size and digest of the whole text, and the back, or the fixed text, and the others are emptied; fails only below the shortest body |
| `Shortening.OmittedNames` | runtime/loops/context_tools.go:472-472 | the marker names the length of the whole text in decimal digits without a leading zero, and its digest |
| `Shortening.ShortenFits` | runtime/loops/context_tools.go:444-489 | a shortened body is within its allowance, valid, has its images in place, and its whole text is that preview |
| `ProjectionText.AllocateText` | runtime/loops/context_tools.go:209-268 | once every result has its reserve, allocation succeeds and all bodies stay within the budget; each is the fixed text or the shortened body under its allowance, a fair share in the newest group and the remainder beside the reserves in an older one |
| `ProjectionText.OlderCutOnlyWhenFull` | runtime/loops/context_tools.go:245-256 | a result of an older exchange is shortened only when it leaves no more than a reserve for each result after it |
| `ProjectionText.OmittedAsPlanned` | runtime/loops/context_tools.go:272-275 | exactly the results of the newest exchange, of the older ones, or of both are replaced by the fixed text, as the plan says |
| `ProjectContext.ChooseKept` | runtime/loops/context_tools.go:76-143 | each outcome exactly under its condition: the longest suffix of exchanges that fits, less those to be dropped, and from there the first place with room for reserves and summary |
| `ProjectContext.ChoiceUnique` | runtime/loops/context_tools.go:76-143 | there is only one such outcome |
| `ProjectContext.ChosenIsGood` | runtime/loops/context_tools.go:76-143 | what is chosen always has the latest exchange and stays within the limits, summary included |
| `ProjectContext.ArgumentsAddUp` | runtime/loops/context_tools.go:379-388 | the arguments of every call count, each with all of its bytes |
| `ProjectContext.ArgumentsOfExchanges` | runtime/loops/context_tools.go:84-106 | what the choice of exchanges counts is what all calls of the history carry |
| `ProjectContext.ProjectedToolResults` | runtime/loops/context_tools.go:329-359 | lists every result of the request exactly once with its group, call and error flag: newest group first, then failures, then in call order |
| `ProjectedBodies.SameShapeKeeps` | runtime/loops/context_tools.go:231-268 | replacing bodies keeps pairs, calling messages and all other messages |
| `ProjectedBodies.BodiesWeigh` | runtime/loops/context_tools.go:231-268 | the bodies in the request weigh together what was put in |
| `ProjectedBodies.PrepareOne` | runtime/loops/context_tools.go:180-208 | an image is kept exactly when the policy allows it, the bytes left suffice and a slot is free; else its text names the first of these that failed |
| `ProjectedBodies.PrepareAll` | runtime/loops/context_tools.go:171-208 | the same over all results, newest first, sharing bytes and slots; omitted results take none |
| `ProjectRequest.ProjectToolContext` | runtime/loops/context_tools.go:69-270 | succeeds exactly for a well-paired history with a choice of exchanges under which the other images fit; keeps those exchanges, everything else in order, roles and one summary; every result shows its images and text as allotted; exchanges, arguments of all calls, text and images of the request stay within their limits, and all images within the policy |
| `ProjectRequest.MessageImagesAddUp` | runtime/loops/context_tools.go:390-400 | every image outside tool results counts, over all messages |
| `Migration.TempIsNoCandidate` | runtime/sessions/layout.go:48-50 | a leftover temporary file is never taken for a record or the marker |
| `Migration.CandidatesExactly` | runtime/sessions/layout.go:48-50 | exactly the names that end in .json, in letters of either case, count as records |
| `Migration.OriginalIsUnique` | runtime/sessions/migrate_restore.go:11-62 | two unmigrated stores that agree elsewhere are identical |
| `Migration.Store.Publish` | runtime/sessions/storefs.go:295-338 | a complete file appears at once or nothing does, and nothing is overwritten, wherever the steps fail or stop |
| `Migration.Store.ApplyEntry` | runtime/sessions/migrate_apply.go:97-121 | at every point the record exists in its old or its new form |
| `Migration.Store.Apply` | runtime/sessions/migrate_apply.go:93-123 | wherever it stops nothing is lost; when it ends well the store is marked and every record has its new form only; on an unmigrated store it ends well exactly when every source is the very file the manifest names, so an apply after a restore is refused unless the restored files have the old identities |
| `Migration.Store.ValidateRestoreState` | runtime/sessions/migrate_restore.go:79-110 | the check passes in every state that stopped runs can leave |
| `Migration.Store.RestoreEntry` | runtime/sessions/migrate_restore.go:39-61 | the old form is back before the new one goes |
| `Migration.Store.Restore` | runtime/sessions/migrate_restore.go:11-62 | stopping it loses nothing; once it ends well the store is exactly the original |
| `Migration.Store.Cleanup` | runtime/sessions/migrate_restore.go:112-155 | the backup goes only once the migration is complete; when it ends well copies, manifest and directory are gone |
| `Migration.Store.Open` | runtime/sessions/layout.go:74-109 | every unmarked intermediate state with a record is refused; a completed migration opens |
| `Migration.RecoverAfter` | runtime/sessions/migrate_restore.go:11-62 | after any number of applies and restores, each stopped anywhere, one undisturbed restore gives back exactly the original files |
| `RunMachine.OutcomeKept` | runtime/loops/stream.go:87-208 | every section keeps errors, reasons and delivered events consistent |
| `RunMachine.DataKept` | runtime/loops/stream.go:356-411 | every section keeps the transcript well paired and the counters within limits |
| `RunMachine.RunsKeepInvariant` | runtime/loops/stream.go:210-222 | in every reachable state the transcript extends the request as a valid tool history with distinct call IDs, and all budgets hold |
| `RunMachine.ReasonWrittenOnce` | runtime/loops/result.go:64-69 | the stop reason, once written, never changes |
| `RunMachine.OutcomesAgree` | runtime/loops/stream.go:655-674 | in every interleaving of Next and Close: a controlled reason keeps Err nil forever, an error means failed or cancelled, run_end comes at most once with the run's reason |
| `RunReports.DecidedStopIsReported` | runtime/loops/stream.go:87-134 | once a stop is decided, in every interleaving with Close and cancellation a Next that returns has delivered run_end with its reason |
| `RunReports.EndComesNearer` | runtime/loops/stream.go:87-134 | and it does return: the reader always has a section to run, each brings it nearer, and Close does not change how near it is |
| `RunReports.CloseReportsBothIff` | runtime/loops/stream.go:187-208 | a Close makes it possible that the stream reports an error and run_end if and only if it falls between the check of the context and a section that decides to stop |
| `RunReports.ReachableCloseReportsBothIff` | runtime/loops/stream.go:356-394 | in every run: the first Close does so if and only if the reader is about to apply the decision after a model turn, with no error, reason or end yet |
| `RunReports.RunReportsBothIff` | runtime/loops/stream.go:655-674 | a run that returned reports both if and only if one of its Closes fell there and the next section of the reader stopped the run |
| `RunReports.FailuresHaveNoEnd` | runtime/loops/stream.go:15-20 | when no Close falls there, a failed run delivers no run_end |
| `RunReports.OverlappingCloseReportsBoth` | runtime/loops/stream.go:15-20 | for every request there is a run that reports an error and a run_end |
| `RunReports.ReasonHasCause` | runtime/loops/stream.go:356-394 | in every run a stop reason is there only because an action caused it: an answer, a limit that was met, a stall, a failure, or Close |
| `RunReports.LimitsStop` | runtime/loops/run_state.go:35-70 | a model that asks for tools stops the run exactly at its limit on turns, tokens or calls, looked at in this order |
| `RunReports.ToolTurnCompletes` | runtime/loops/stream.go:210-222 | for every request, acceptable batch and fitting results there is a run that stores them, answers and completes |
| `RunAccounts.CountersAreExact` | runtime/loops/run_state.go:35-90 | in every run: calls counted are the results added to the history, tokens those of the finished streams, turns the requests made; until it fails, tool turns are the answers added and the bytes recorded are those the checked turns asked for; all within the limits |
| `RunAccounts.SaturationDecides` | runtime/loops/run_state.go:88-99 | the token sum held at 64 bits with its mark exceeds a limit exactly when the true sum does; refused exactly for a negative report |
| `RunAccounts.FirstCancelWins` | runtime/loops/stream.go:655-674 | a run is closed exactly when it was told to, and its context holds what cancelled it first |
| `RunAccounts.FinishedExactly` | runtime/loops/stream.go:87-134 | a run is finished exactly when it was closed, has failed, or has delivered its end |
| `RunAccounts.OverIsOver` | runtime/loops/stream.go:87-134 | once a Next has returned from a failed run, or one closed before its stop was decided, nothing changes what was delivered, the history, the error or the reason |
| `RunAccounts.ClosedDeliversOnlyTheEnd` | runtime/loops/stream.go:108-134 | after a Close nothing but the end of the run is still delivered |
| `Ledger.CallLedger.Load` | runtime/loops/run_state.go:115-129 | accepts exactly histories whose calls all have IDs of their own, and knows them all |
| `Ledger.CallLedger.Accept` | runtime/loops/run_state.go:131-152 | accepted exactly when every ID is new and not empty and every argument is a JSON object; taken as a whole or refused without effect |
| `Leases.LeasesKept` | runtime/sessions/manager.go:111-167 | every step keeps references counted, one lock object per ID, and tokens with at most one holder |
| `Leases.CurrentKept` | runtime/sessions/manager_ops.go:219-253 | loaded messages stay current and stored sessions only grow |
| `Leases.OneHolder` | runtime/sessions/manager.go:111-145 | at most one holder per ID in every run |
| `Leases.RunsKeep` | runtime/sessions/manager_ops.go:219-290 | over every run stored messages only grow |
| `Leases.CommitStoresTranscript` | compose/turn.go:130-139 | a successful commit leaves exactly the run transcript stored and no other session changed |
| `Leases.AppendStores` | runtime/sessions/manager_ops.go:255-268 | an append that is saved leaves the messages stored at that moment followed by its own, and no other session changed; no other writer can keep it from being saved |
| `Leases.ForkStores` | runtime/sessions/manager_ops.go:111-145 | a fork is saved exactly while there is no child, which then equals its source at that moment; no other session changes |
| `Leases.PatchStores` | runtime/sessions/manager_ops.go:219-253 | a patch changes no messages |
| `Leases.OnlySavesStore` | runtime/sessions/manager_ops.go:219-290 | nothing but a save changes what is stored |
| `Leases.TurnCanCommit` | compose/turn.go:106-139 | a turn that nobody disturbs can be begun, run and committed, and stores exactly its transcript |
| `Leases.AppendCanBeMade` | runtime/sessions/manager_ops.go:255-268 | so can an append |
| `Leases.LosingTurnChangesNothing` | runtime/sessions/manager_ops.go:271-290 | a commit is possible exactly while the session is what the turn began with; otherwise nothing changes |
| `Leases.FreeCanStep` | runtime/sessions/manager.go:111-167 | a worker that waits for nobody has an enabled step |
| `Leases.LeasesNeverDeadlock` | runtime/sessions/manager.go:147-167 | because two leases are taken in ID order, some worker can always go on |
| `Reducer.PartReducer.Apply` | core/models/reducer.go:96-239 | one event changes its own part only, or is refused without effect |
| `Reducer.ReduceAll` | core/models/reducer.go:47-68 | the event loop computes the reduction |
| `Reducer.CompleteExactly` | core/models/reducer.go:163-239 | a part is complete exactly when its operations are one start, deltas of its kind and one end, and then its content is the start with all deltas in order |
| `Reducer.ContentsStream` | core/models/reducer.go:163-239 | for each kind of content a start, any number of deltas of the kind named, and an end complete to that content with the deltas appended, or are refused for validity; arguments come from the start or the deltas |
| `Reducer.OtherDeltasRefused` | core/models/reducer.go:163-204 | one delta of any other kind, and the part is refused |
| `Reducer.OnePartReduces` | core/models/reducer.go:47-68 | the reduction of the events of one part is what they make of it |
| `Reducer.ReduceByPart` | core/models/reducer.go:47-239 | each part is the fold of its own operations, and the reduction refuses exactly when one of them does |
| `Reducer.InterleavingsAgree` | core/models/reducer.go:47-239 | any two interleavings of the same operations per part give the same parts or are both refused |
| `Replay.ContentsAreFinished` | core/models/reducer.go:241-315 | for every accepted event list each content of the assembled response is the start with the deltas of its part, parts in index order, none missing |
| `Replay.InterleavingsAssemble` | core/models/reducer.go:241-315 | two interleavings of the same operations per part assemble to the same response |
| `Replay.DescriptionOf` | core/models/reducer.go:70-92 | the provider is fixed at the start and a different one at the end is refused; every other field is that of the end, or of the start where the end leaves it out |
| `Replay.ResponseEvents.Next` | core/models/response_limits.go:35-72 | produces start and end of every part of every candidate, once and in order |
| `Replay.ReplayGivesBack` | core/models/response_limits.go:10-80 | an accepted replay returns the description and usage, and every candidate with its provider state and content, sorted by index; only an empty status and empty finish reasons are filled in |
| `JsonParser.Parser.ScanNumber` | internal/jsonvalue/parse.go:400-440 | takes exactly the longest number |
| `JsonParser.Parser.ScanString` | internal/jsonvalue/parse.go:281-325 | decodes exactly the string up to its closing quote, or refuses |
| `JsonParser.Parser.ParseOne` | internal/jsonvalue/parse.go:129-162 | the recursive parser computes the specified parse within depth and node budgets |
| `JsonParser.ParseText` | internal/jsonvalue/parse.go:72-89 | accepts exactly one value and nothing after it |
| `JsonRoundTrip.StringReads` | internal/jsonvalue/canon.go:75-102 | a printed string reads back as it was |
| `JsonEscapes.EscapedReadsAlike` | internal/jsonvalue/parse.go:326-398 | every character and its escaped form, one code unit or a surrogate pair, read alike whatever follows |
| `JsonEscapes.EveryPointEncodes` | internal/jsonvalue/parse.go:343-347 | every code point but the surrogates has an encoded form that counts as one character and stands for it (section 3 of RFC 3629) |
| `JsonEscapes.EveryRuneIsEncoded` | internal/jsonvalue/parse.go:343-347 | and nothing else counts as a character |
| `JsonEscapes.UpperReadsAlike` | internal/jsonvalue/parse.go:379-398 | hexadecimal digits of either case read alike |
| `JsonSays.PrintSays` | internal/jsonvalue/canon.go:75-102 | a printed value that is not a number is read as itself wherever it stands, whatever follows |
| `JsonRoundTrip.NumberAppend` | internal/jsonvalue/parse.go:400-440 | a number is read in full and no further (section 6 of RFC 8259) |
| `JsonNumbers.NumbersExactly` | internal/jsonvalue/parse.go:400-446 | a text is read as one number in full exactly when it is a number of section 6 of RFC 8259: a sign or none, digits without a leading zero, perhaps a fraction and an exponent |
| `JsonNumbers.SkipsExactly` | internal/jsonvalue/parse.go:474-483 | skipped are spaces, tabs, line feeds and returns, all of them and nothing else |
| `JsonGrammar.ParsesExactly` | internal/jsonvalue/parse.go:72-484 | a text is parsed as a value exactly when it spells that value by the grammar of RFC 8259 (sections 2 to 7, spaces and every kind of escape included), names no key twice in an object, and is within the depth, node and number budgets |
| `JsonGrammar.PiecesRead` | internal/jsonvalue/parse.go:311-398 | a string written as it is, with short escapes, code units or surrogate pairs, in any mix, reads as its text |
| `JsonRoundTrip.ParseSound` | internal/jsonvalue/parse.go:129-279 | whatever is parsed is well formed, without duplicate keys, and within depth and node budgets |
| `JsonRoundTrip.PrintParses` | internal/jsonvalue/canon.go:11-102 | the print of a well-formed value within the budgets parses back to it |
| `JsonCanon.CanonicalReads` | internal/jsonvalue/canon.go:11-73 | parsing the canonical text gives back the value with its members sorted |
| `JsonCanon.KeyLessIsLexicographic` | internal/jsonvalue/canon.go:50-68 | keys are ordered by their first difference, byte by byte |
| `JsonCanon.SameIsCanon` | internal/jsonvalue/canon.go:11-73 | values equal up to the order of members at every level, by a matching of members, are exactly those with equal canonical forms |
| `JsonCanon.CanonicalDecides` | internal/jsonvalue/jsonvalue.go:44-52 | canonical texts are equal exactly when the parsed values are equal up to member order |
| `JsonCanon.ObjectsUpToOrder` | internal/jsonvalue/canon.go:50-68 | objects have the same canonical form exactly when they have the same members in some order |
| `CanonicalBytes.FramedSplits` | core/models/content.go:306-325 | a length-prefixed field can be read off in one way only |
| `CanonicalBytes.BytesWrittenOut` | core/models/content.go:257-330 | the bytes of each kind of content, field by field |
| `CanonicalBytes.BytesDecide` | core/models/content.go:263-396 | for valid blocks, canonical bytes are equal exactly when the blocks are Equal |
| `Page.MaxIDHeap.Push` | runtime/sessions/store.go:56-57 | keeps the heap and adds exactly one ID |
| `Page.MaxIDHeap.FixRoot` | runtime/sessions/store.go:77-78 | restores the heap after its root was replaced |
| `Page.SelectPageID` | runtime/sessions/store.go:66-79 | the heap holds the smallest candidates seen so far |
| `Order.LessIsLexicographic` | runtime/sessions/store.go:56-57 | IDs are ordered by their first difference |
| `Page.CompleteIDPage` | runtime/sessions/store.go:81-92 | sorted, cut to the limit, with a cursor exactly when more follows |
| `Page.ListIDsPage` | runtime/sessions/memory.go:127-153 | the page is filter, sort, take, for every iteration order |
| `Page.ListAll` | runtime/sessions/memory.go:127-153 | following cursors lists every ID exactly once in order and terminates |

## Left out

- HTTP server, event-stream writing, UI, provider drivers and their codecs: presentation and field mapping.
- File handles, permissions and fsync: in the migration only atomic link, remove, write and stop points and the identity of source files are kept; the identity of the backup directory appears as a step that may fail.
- Creation of the migration backup and the parsing of its manifest: the model starts from a verified backup.
- SHA-256, HMAC and encryption strength: digests are arbitrary functions; in the migration equal digests mean equal content.
- The collector's prefix mode and its record mode, where the window need not be a contiguous part of the stream.
- Image container checks, JSON Schema validation and the regex engine: what the image decoder finds and the image policy of a provider are parameters.
- Clocks, contexts and goroutine scheduling: cancellation is an action or a possible outcome of a step.
- Deleting a session while a turn runs on it: the length comparison alone does not cover delete and re-create.
- Resource names are sequences of characters: the limit on their length and their order count characters, not bytes, and UTF-8 validity is not checked.
- Sums of sizes inside one output or one request are unbounded integers where the code adds without a check; the inspection ceiling of 256 MiB keeps them far from 64 bits.
- The number of the next waiter in the queue does not wrap around at 64 bits.
- The text of the tool history summary: it is any function of the number of dropped exchanges.
- The encoded-size contraction loop around the projection and the adaptation of images to a provider: they call the modelled operations with other parameters.
- Number budgets of the JSON parser are any rule on the lexeme.
- Json.ParseValue: is the specification by remaining text; `JsonParser` is the parser with its position, depth and node counters and is proved equal to it.
- JsonCanon.Canon: sorts on the value before printing, where the code sorts each object while it prints.
- Reserve.TurnReserveIff: takes the images that tools may return from a given list, because which bytes are an image is for the decoder to say; texts may be anything, and without images the list is empty.
- Reserve.ReserveHolds: gives a sufficient condition that needs no list of images; the exact one is `Reserve.TurnReserveIff`.
- RunMachine.RunsKeepInvariant: is stated for requests with calls only in assistant messages and results only in user messages, and takes the model's answers to carry no tool results, which the reducer guarantees.
- ProjectRequest.ProjectToolContext: is stated for histories with calls only in assistant messages and results only in user messages.
