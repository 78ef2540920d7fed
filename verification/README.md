# Verified models of the gateway's stateful core

The gateway answers OpenAI-style requests by running prompts on Notion accounts. Its difficult parts are state
machines and small concurrent protocols written in Go. This project models them in Dafny and proves what holds in
every run. `dafny verify dfyconfig.toml` checks all of it.

| files | what they model |
|---|---|
| `Strings`, `Sequences`, `Wrappers` | the string operations of Go's library the program relies on, and small shared notions |
| `Sanitizer`, `LangTags`, `LeadingTags` | making assistant text visible: language tags, unfinished citations, trimming |
| `Deltas`, `PatchTable`, `TranscriptSpec`, `Transcript`, `TranscriptReads`, `Streaming`, `ReasoningStream`, `Cumulative` | the NDJSON transcript machine: the value table of parts, patches, cumulative events, and the suffixes sent to the client |
| `Readers`, `ReaderStops` | the sequential reader and the threaded reader with its idle timer, and where they stop |
| `ResponseStore`, `ResponseLife` | the map with a time to live behind a lazily cleaned binary heap, and what a stored response is answered with |
| `DispatchSlots`, `SlotAccounting` | per-account slot counters under compare-and-swap while the slot table is rebuilt |
| `AccountPool`, `Candidates`, `AccountHealth` | the retry and failover loop, the order of candidates, and the two copies of the record kept of each account |
| `SqliteWriter` | the bounded queue with one worker, its direct fallback and its closing handshake |
| `ConversationSpec`, `ConversationOrder`, `ConversationLife`, `ConversationReads`, `Conversations` | the conversation store: copy-on-write entries, recency list, message lifecycle, and what a conversation reads like |
| `Sessions` | the continuation session and step tables |
| `ResponsesStream`, `ResponsesTrace` | the event stream of a live response with its keep-alive goroutines, and the order its callbacks give the events |
| `Hedge`, `Resilience` | the hedged call, the circuit breaker, retrying |

Objects that the program updates in place are classes here, and each of their methods is proved to do what a
function on values says; what those functions mean is then proved on the fields, over single calls and whole runs.
Protocols between goroutines are state machines: one step per atomic access, lock section or channel operation, and
theorems about every schedule. The clock, generated ids, upstream answers and failures of writes and statements are
parameters, so every statement holds for all of them.

## Where the code does less than its names suggest

Each of these is a lemma: the exact condition under which the expected law holds, or a concrete run that breaks it.

- A cumulative text that looks like the one before it is ignored, also when it is longer
  (`Cumulative.CumulativeLinesDeliver`).
- An opening tag in capitals that is not closed hides the whole text (`LeadingTags.UnfinishedTagHidesAll`).
- A maximum of 2^31 concurrent requests wraps and counts as one (`DispatchSlots.MaximumCounts`).
- A repeated delta is dropped when the text already ends in it (`Deltas.AppendIsConcatenation`,
  `Deltas.RepeatedDeltaIsLost`).
- A language tag split over two deltas has partly reached the client before it is recognised
  (`Streaming.SplitTagBreaksStream`); in general the client sees the result exactly if the texts shown form a chain
  of prefixes (`TranscriptSpec.ClientSeesResult`, `Streaming.ClientHoldsResultExactly`).
- The reasoning of the result can differ from all the client received, although everything shown was a chain: a final
  record overrides what is shown, and the result is composed from the steps (`TranscriptSpec.ClientSeesReasoning`,
  `TranscriptSpec.ReasoningCanDiffer`, `ReasoningStream.StepReasoningReachesClient`).
- An appended part of unknown type takes no position, so later positions no longer match upstream
  (`PatchTable.StepFollowsUpstream`); a content patch past the end leaves text that the next part inherits
  (`PatchTable.StrayTextIsInherited`).
- Shrinking an account's maximum makes its counter forget holders (`SlotAccounting.CountDriftsExactly`,
  `SlotAccounting.ShrinkingLosesTrack`).
- The stored count of consecutive failures is the count of all failures, because a zero never overwrites a stored
  value (`AccountHealth.FailuresAccumulate`, `AccountHealth.SuccessClearsExactly`).
- A request takes nothing off an account's hourly quota if its context ends, or the login it calls for was started
  shortly before, and no refresh wrote the account back (`AccountHealth.TurnCountsExactly`,
  `AccountHealth.AbortLeavesNoTrace`, `AccountHealth.DeclinedReloginForgetsStart`).
- An abort behind a failed refresh leaves its start in the configured account alone, and the next request that takes
  its copy from the list of candidates overwrites it (`AccountHealth.EveryStartCountsExactly`,
  `AccountHealth.AbortedStartSurvivesExactly`, `AccountHealth.AbortedStartIsOverwritten`).
- The capacity error does not mean that no slot was acquired: an account whose slot is taken between a session refresh
  and the second run ends in the same error (`AccountPool.CapacityErrorExactly`,
  `AccountPool.CapacityErrorAfterAcquiring`).
- A save that finds the queue full, and a delete during the final drain, are applied before older saves
  (`SqliteWriter.OvertakesExactly`, `SqliteWriter.FullQueueLetsSaveOvertake`,
  `SqliteWriter.DeleteOvertakesWhileClosing`).
- A second `Close` returns while the first still drains the queue (`SqliteWriter.ReturnedCloseExactly`,
  `SqliteWriter.SecondCloseReturnsEarly`).
- The recency list is sorted only if clock readings come in lock order, since they are taken before the lock
  (`ConversationOrder.SortedIffClockIsNewest`); duplicate ids on loading break it (`ConversationOrder.LoadedInStep`);
  a full list evicts a running conversation like any other (`ConversationOrder.CreateEvictsTheLast`).
- A delta that comes after completion sets a conversation running again (`ConversationLife.LateDeltaReopens`).
- A failed statement leaves two active sessions or a missing step row (`Sessions.OneActiveExactly`,
  `Sessions.StepsExactly`).
- Reasoning deltas follow `response.reasoning.done` exactly if a reasoning callback comes after a text that ended
  visible reasoning (`ResponsesTrace.ReasoningOrderExactly`, `ResponsesStream.ReasoningCanFollowItsEnd`).
- The terminal event stays last exactly if no keep-alive event is accepted after it
  (`ResponsesTrace.TerminalStaysLastExactly`, `ResponsesStream.KeepAliveCanComeLast`).
- Text of the primary follows the hedge's exactly if the primary, still at work, writes after the hedge has won
  (`Hedge.PrimaryFollowsExactly`, `Hedge.PrimaryMayWriteAfterHedgeWon`).
- A half-open breaker admits one call more than `halfOpenMax`, and calls that never report an outcome lock it for
  good (`Resilience.RunIsByTheRule`, `Resilience.SilentProbesLockOut`).

## Model

| member | source | states |
|---|---|---|
| `Sanitizer.TrimTrailingIncompleteCitation` | internal/app/notion_client.go:187-217 | the scanning loop cuts the text where the running scan stands when the text ends |
| `Sanitizer.ScannerFindsOpening` | internal/app/notion_client.go:187-217 | the one-pass scan finds the same place as the look-ahead definition: the first bracket that ends the text or opens a citation that is never closed |
| `Sanitizer.CutCitationMonotone` | internal/app/notion_client.go:187-217 | more text behind never moves the citation cut back: the cut text only grows in prefix order |
| `Sanitizer.CleanAllLangTags` | internal/app/notion_client.go:165-185 | the in-place loop computes the recursive meaning of removing tags and starting over |
| `LangTags.CleaningKeepsPlainText` | internal/app/notion_client.go:165-185 | for every document of plain characters, `<` among them, opening tags (self-closing or not) and closing tags, what is left is exactly the plain characters in order, unless these spell a tag once the opening tags are dropped |
| `LangTags.RemoveClosers` | internal/app/notion_client.go:183-185 | dropping all closing tags from a document without opening tags leaves exactly its plain characters, `<` among them, unless these spell a tag themselves |
| `LeadingTags.OpeningMatched` | internal/app/notion_client.go:148-163 | the pattern for one leading tag matches spaces, an opening tag in any case that is closed and whose name ends there, and the spaces behind it |
| `LeadingTags.ClosingMatched` | internal/app/notion_client.go:148-163 | the same for a closing tag in any case |
| `LeadingTags.NothingMatched` | internal/app/notion_client.go:148-163 | it matches nothing where neither kind begins, or an opening tag has no end or goes on as a longer word |
| `LeadingTags.LeadingTagIsHidden` | internal/app/notion_client.go:148-163 | a leading opening tag in capitals before plain text is stripped and the text shown |
| `LeadingTags.UnfinishedTagHidesAll` | internal/app/notion_client.go:148-163 | an opening tag in capitals that is still open hides the whole text |
| `Strings.TrimSpaceExactly` | internal/app/notion_client.go:148-163 | trimming drops white space at both ends and nothing else |
| `Strings.SpacesByCode` | internal/app/notion_client.go:148-163 | the white space of `unicode.IsSpace`, by code points |
| `Sanitizer.SanitizeAssistantVisibleText` | internal/app/notion_client.go:148-163 | the imperative sanitizer with its leading-tag loop computes `Sanitize` |
| `Sanitizer.SanitizeTagFree` | internal/app/notion_client.go:148-163 | on text in which no language tag begins, only trimming and the citation cut are left |
| `Sanitizer.SanitizeMonotone` | internal/app/notion_client.go:148-163 | while no language tag has appeared, extending the raw text only extends the visible text |
| `Sanitizer.ShownAsIs` | internal/app/notion_client.go:148-217 | for every text: sanitising leaves it alone if and only if it is trimmed, begins with no byte order mark, leaves no citation open and has nothing that is taken for a tag |
| `Sanitizer.SanitizeOfClean` | internal/app/notion_client.go:148-163 | whatever the text: if cleaning leaves no tag behind, only trimming and the citation cut follow |
| `Deltas.AppendIsConcatenation` | internal/app/notion_client.go:2246-2267 | an "x" patch is concatenation if and only if the text does not end in it and it does not begin with the text, as sent or visibly; a repetition is dropped, and one that starts over takes the place of the text |
| `Deltas.RepeatedDeltaIsLost` | internal/app/notion_client.go:2246-2267 | concrete loss: "ha" streamed twice stays "ha" |
| `Deltas.AppendDeltaGrows` | internal/app/notion_client.go:2246-2267 | whatever the guards drop, the sanitised text only grows in prefix order as long as no tag is assembled |
| `Deltas.ReplacementTakesPlace` | internal/app/notion_client.go:2269-2288 | a "p" patch rewrites the text from its last language tag on; without a tag it takes the place of a text it continues, as sent or visibly, and is put behind any other |
| `Deltas.PatchKinds` | internal/app/notion_client.go:2235-2244 | an "a" patch merges as a cumulative text does, an "x" patch appends |
| `Deltas.PartsCombine` | internal/app/notion_client.go:2218-2233 | of two parts of which one begins with the other the longer stays, others are put together |
| `Deltas.TextDeltaSuffix` | internal/app/notion_client.go:3844-3864 | the loop returns what follows the common beginning of both texts |
| `Deltas.DeltaOfExtension` | internal/app/notion_client.go:3844-3864 | for an extension the delta is exactly the missing rest |
| `Deltas.EmitExcess` | internal/app/notion_client.go:2113-2132 | one emission never reduces what the client has in excess of the shown text, and keeps it unchanged exactly for an empty text or an extension |
| `Deltas.StreamEqualsFinal` | internal/app/notion_client.go:2113-2132 | for every sequence of shown texts the concatenated deltas equal the final text if and only if the texts form a prefix chain |
| `Deltas.EmittedIsLastShown` | internal/app/notion_client.go:2113-2132 | the remembered text is the last non-empty text shown |
| `PatchTable.RemoveDeletesOne` | internal/app/notion_client.go:2055-2085 | deletion removes exactly one position of one step, leaves no key at or above the count, and leaves other steps untouched |
| `PatchTable.AppendAddsLast` | internal/app/notion_client.go:2034-2053 | appending a text or reasoning part adds it at the end of the step and nowhere else |
| `PatchTable.PatchChangesOne` | internal/app/notion_client.go:2323-2337 | a content patch on an existing position changes that position alone |
| `PatchTable.EventChangesOne` | internal/app/notion_client.go:1998-2013 | a value of a cumulative event, at a position that exists or the next one, sets the kind there and merges the text unless it is blank |
| `PatchTable.SetKindChangesOne` | internal/app/notion_client.go:2323-2328 | a type patch on an existing position changes that position alone |
| `PatchTable.RegisterStartsRow` | internal/app/notion_client.go:2015-2032 | a new step starts as the list of its parts, unknown ones included |
| `PatchTable.StepFollowsUpstream` | internal/app/notion_client.go:2323-2416 | one operation at any position, existing or not, changes the list as upstream if and only if it does not append a part of unknown type; it leaves no key beyond the count exactly if it is no content or type patch of a missing position |
| `PatchTable.TableFollowsUpstream` | internal/app/notion_client.go:2323-2416 | from a clean step, over every run without parts of unknown type and without content or type patches of missing positions, the maps are the upstream list, and other steps do not change |
| `PatchTable.StrayPatchSpoils` | internal/app/notion_client.go:2323-2337 | a content patch leaves no key beyond the count if and only if it addresses an existing position |
| `PatchTable.StrayTextIsInherited` | internal/app/notion_client.go:2034-2053 | what a stray patch leads to: the next appended part inherits its text |
| `PatchTable.RowCombines` | internal/app/notion_client.go:1934-1969 | parts are put together in order; one that begins with all before it takes their place, one that they begin with adds nothing |
| `PatchTable.UnknownStepIsEmpty` | internal/app/notion_client.go:1934-1940 | a step of which nothing is registered has no parts |
| `PatchTable.ComposeSingleText` | internal/app/notion_client.go:1934-1969 | a step with a single text entry is composed to that entry |
| `Transcript.TranscriptState.RemovePatchValueEntry` | internal/app/notion_client.go:2055-2085 | deletion on the object equals deletion of one position on the table value |
| `Transcript.TranscriptState.ShiftDown` | internal/app/notion_client.go:2062-2083 | the shifting loop over both maps gives the maps with one position taken out |
| `Transcript.TranscriptState.ComposeStepAgentContent` | internal/app/notion_client.go:1934-1969 | the collecting loop is the in-order fold of the step's parts by kind |
| `Transcript.TranscriptState.EmitFullText` | internal/app/notion_client.go:2113-2132 | object and client end up as the value specification says, including a failing write that leaves the remembered text as it was |
| `Transcript.TranscriptState.EmitFullReasoning` | internal/app/notion_client.go:2134-2147 | the same for reasoning |
| `Transcript.TranscriptState.RefreshAgentStepFromPatchState` | internal/app/notion_client.go:1971-1996 | recomposes a step and shows what changed, reasoning first |
| `Transcript.TranscriptState.ApplyPatchOperation` | internal/app/notion_client.go:2339-2416 | every patch operation, ignored ones included, acts on the object as on the value |
| `Transcript.TranscriptState.MergeAgentInferenceEvent` | internal/app/notion_client.go:2290-2321 | a cumulative event is merged value by value, stopping at the first failing write |
| `Transcript.TranscriptState.MergeFinalAgent` | internal/app/notion_client.go:2149-2178 | the record-map answer overrides text and reasoning as specified |
| `Transcript.TranscriptState.HandleLine` | internal/app/notion_client.go:2418-2456 | every kind of line acts on the object as on the value, errors included |
| `TranscriptReads.ResultCounts` | internal/app/notion_client.go:2418-2480 | without an error the result counts exactly the lines that hold something, and its message ids are those of the last record map that named any, or else the id of the answer |
| `TranscriptReads.ShowingWrites` | internal/app/notion_client.go:2113-2147 | showing costs a write if and only if something is sent; a refused write leaves the transcript as it was |
| `TranscriptReads.ResultNames` | internal/app/notion_client.go:2458-2480 | the answer of the result has the id it was given, or else that of the active step; its completion and the reasoning beside it are as noted |
| `TranscriptReads.StepAdded` | internal/app/notion_client.go:2339-2372 | a new step comes last with its trimmed id and the trimmed parts of each kind put together; an agent step becomes the active one and is shown, any other only listed |
| `TranscriptReads.EditShows` | internal/app/notion_client.go:2373-2416 | after an edit an agent step holds what its parts of each kind combine to and shows it; a kind of which no part holds anything stays as it was; other steps are not shown |
| `TranscriptReads.FinishMarks` | internal/app/notion_client.go:2385-2394 | finishing marks the step and the answer and shows nothing |
| `TranscriptReads.ReasoningIsParagraphs` | internal/app/notion_client.go:2099-2111 | the reasoning is the visible reasoning of the steps, one paragraph each, or that of the final answer if no step has any |
| `TranscriptReads.RecordShowsText` | internal/app/notion_client.go:2149-2178 | a final record with a text shows that text, a blank one leaves the text as it was |
| `TranscriptReads.RecordShowsReasoning` | internal/app/notion_client.go:2149-2178 | a final record shows its own reasoning if that is visible and longer than what the steps compose, else what they compose, and if nothing is visible its own as it came |
| `TranscriptReads.RecordNames` | internal/app/notion_client.go:2149-2178 | the answer is named by the active step when text is shown, or else by the record |
| `TranscriptSpec.HandleLineEvolves` | internal/app/notion_client.go:2418-2456 | every line keeps the transcript sound, never forgets shown text and never takes back what was sent |
| `TranscriptSpec.HandleLinesEvolve` | internal/app/notion_client.go:2418-2456 | the same over any run of lines |
| `TranscriptSpec.ResultCarriesEmittedText` | internal/app/notion_client.go:2458-2480 | after every run the result text is exactly the remembered text, and a run that showed text never ends with none |
| `TranscriptSpec.ClientSeesResult` | internal/app/notion_client.go:2113-2147 | after every run the client's concatenated deltas equal the result text if and only if the texts shown form a prefix chain; the client's concatenated reasoning equals the remembered reasoning under the same condition |
| `TranscriptSpec.ClientSeesReasoning` | internal/app/notion_client.go:2134-2178 | when the reasoning shown forms a prefix chain and no write failed, the client holds the reasoning of the result if and only if the reasoning composed from the steps is what was shown last, or is blank while a final record set one |
| `TranscriptSpec.ReasoningCanDiffer` | internal/app/notion_client.go:2149-2178 | the concrete run of two lines after which the client holds "abc" and the result says "a" |
| `ReasoningStream.StepReasoningReachesClient` | internal/app/notion_client.go:2134-2147 | for every run of lines without a final record that carries reasoning: if no write failed and the steps hold visible reasoning, the client received the reasoning of the result, up to spaces around it, if and only if the reasoning shown was a chain of prefixes |
| `ReasoningStream.FreshReasoningDelivers` | internal/app/notion_client.go:2458-2480 | from an empty transcript the client receives, by "x" patches without `<` to one reasoning part, exactly the sanitised reasoning, which is also that of the result |
| `Streaming.StreamStep` | internal/app/notion_client.go:2323-2337 | one "x" patch keeps client, remembered text and sanitised entry equal |
| `Streaming.StreamRefinesOneShot` | internal/app/notion_client.go:2113-2132 | streaming refines one-shot sanitising for every run of "x" patches that never assembles a tag |
| `Streaming.NoAngleEntries` | internal/app/notion_client.go:2246-2267 | deltas without `<` never assemble a tag, whatever is dropped |
| `Streaming.FreshStreamDeliversResult` | internal/app/notion_client.go:2458-2480 | from an empty transcript the client receives, by "x" patches without `<`, exactly the sanitised final entry, which is also the result |
| `Streaming.ClientHoldsResultExactly` | internal/app/notion_client.go:2113-2132 | from an empty transcript, for any "x" patches at all, the client holds the text of the result if and only if the sanitised entries after each delta form a prefix chain |
| `Streaming.SplitTagBreaksStream` | internal/app/notion_client.go:148-163 | the run of the two patches "a<" and "lang>" on a fresh transcript: no write fails, the client holds "a<", the result is "a" |
| `Cumulative.CumulativeLinesDeliver` | internal/app/notion_client.go:2193-2216 | upstream sends one step by lines of single values that all show a beginning of one text and one reasoning, longer, repeated or late, finished or not: without a failed write client and result have the longest visible form sent, and the step holds the first value that shows it |
| `Cumulative.OtherTextReplaces` | internal/app/notion_client.go:2193-2216 | a text that neither continues nor begins what is there takes its place |
| `Readers.ConsumeNDJSONStream` | internal/app/notion_client.go:2482-2498 | the reading loop returns the sequential state, result and error |
| `ReaderStops.SequentialStops` | internal/app/notion_client.go:2482-2498 | the sequential reader returns the state behind the first line where an error stands or the answer is completed with text that is not blank, or else behind the last line, with the error of the scan |
| `ReaderStops.ThreadedStops` | internal/app/notion_client.go:2529-2617 | in every schedule the threaded reader stops in no other place, unless its timer fires: then behind some line with text shown, and neither there nor before an error or a complete answer |
| `ReaderStops.TimerRunsExactly` | internal/app/notion_client.go:2563-2583 | in every schedule, until the handler has returned, the timer runs if and only if a timeout is set and text has been shown |
| `ReaderStops.UnfinishedIsReadThrough` | internal/app/notion_client.go:465-470 | lines that never finish the answer are all read, up to the first error |
| `ReaderStops.PatchesComplete` | internal/app/notion_client.go:2385-2394 | patches complete the answer if and only if one of them finishes an agent step before any write failed |
| `ReaderStops.InferenceCompletes` | internal/app/notion_client.go:2315-2320 | a cumulative event completes the answer if and only if it says when it finished and no write failed |
| `ReaderStops.RecordCompletes` | internal/app/notion_client.go:2149-2155 | a final record sets the completion it carries, whatever was known before |
| `Readers.ReadersAgree` | internal/app/notion_client.go:2529-2617 | for every schedule the threaded reader returns what the sequential one returns, unless the idle timer fired: then the state after some prefix with a visible, non-terminal answer |
| `Readers.NeverStuck` | internal/app/notion_client.go:2529-2617 | until the handler has returned, some actor other than the timer can move |
| `Readers.StepsUseUpWork` | internal/app/notion_client.go:2529-2617 | every step of every actor uses up work, so every schedule ends |
| `ResponseStore.Store.Up` | internal/app/response_store.go:30-33 | sift-up in place (`container/heap.Push`) restores heap order and keeps the entries |
| `ResponseStore.Store.Down` | internal/app/response_store.go:35-43 | sift-down in place (`container/heap.Pop`) restores heap order below and keeps the entries |
| `ResponseStore.Store.PushEntry` | internal/app/response_store.go:30-33 | adds exactly one entry to the heap |
| `ResponseStore.Store.PopEntry` | internal/app/response_store.go:35-43 | takes out the root, which is the oldest entry |
| `ResponseStore.RootIsOldest` | internal/app/response_store.go:22-24 | no entry of a heap is older than its root |
| `ResponseStore.Store.PruneExpired` | internal/app/response_store.go:166-196 | removes exactly the items older than the time to live and returns their number, whatever stale or duplicate entries the heap holds |
| `ResponseStore.Store.Save` | internal/app/response_store.go:90-116 | the store equals the plain map filtered by age and updated with the cleaned record |
| `ResponseStore.Store.Get` | internal/app/response_store.go:118-138 | answers like a lookup on the plain filtered map; the second age check never fires |
| `ResponseStore.Store.ReplaceAll` | internal/app/response_store.go:140-164 | loads exactly the records with non-blank ids and rebuilds the heap over them |
| `ResponseStore.Store.DeleteByConversationOrThread` | internal/app/response_store.go:198-217 | removes exactly the matching items and returns their number, leaving the heap lazily stale |
| `ResponseStore.Store.SetTTL` | internal/app/response_store.go:70-75 | changes the time to live alone, never to zero or less |
| `ResponseLife.StaysUntilEnded` | internal/app/response_store.go:90-217 | over every run that does not write it again, a stored response stays as it is until an operation ends it, and is gone exactly then: a delete by its conversation or thread, or a pruning that it has outlived |
| `ResponseLife.SavedIsAnswered` | internal/app/response_store.go:90-138 | a lookup after a save answers with the payload, the trimmed conversation, thread and account, and the creation time given or else the clock reading, if and only if no operation has ended the response and it has not outlived the time to live |
| `ResponseLife.LoadedIsAnswered` | internal/app/response_store.go:140-164 | the same for loaded records whose keys differ once trimmed |
| `ResponseLife.OthersUnanswered` | internal/app/response_store.go:90-217 | no operation makes up a response under an id it was not given |
| `ResponseStore.EagerAnswersLikeLazy` | internal/app/response_store.go:90-217 | for every run a store that prunes early answers like one that filters only at lookup, if no pruning looked past this lookup |
| `ResponseStore.HorizonIsExact` | internal/app/response_store.go:166-196 | that condition is exact: all maps answer unchanged if and only if the horizon `now - ttl` did not fall |
| `DispatchSlots.NextInv` | internal/app/main.go:174-283 | every atomic step of acquire, release and rebuild keeps the counters at or below their holders |
| `DispatchSlots.NeverOvercounts` | internal/app/main.go:198-283 | in every interleaving a published counter lies between 0 and its holders, and is 0 once all have released |
| `DispatchSlots.MaximumCounts` | internal/app/main.go:167-172 | a maximum in the range of 32 bits counts as it is, one below one as one, and 2^31 wraps and counts as one |
| `DispatchSlots.UndisturbedAcquire` | internal/app/main.go:238-259 | an acquisition that nobody disturbs takes a place if and only if the account has a slot with one left, and counts exactly one more |
| `DispatchSlots.UndisturbedRelease` | internal/app/main.go:263-283 | a release that nobody disturbs counts one less on the slot its account has now, but never below zero |
| `DispatchSlots.UndisturbedRebuild` | internal/app/main.go:198-225 | a rebuild keeps the slot of a known account with the new maximum and at most that many in flight, makes an empty one for a new account, and none without a key |
| `DispatchSlots.RebuildPublishes` | internal/app/main.go:222-224 | at its end the new table is published at once and nothing else changes |
| `SlotAccounting.CountDriftsExactly` | internal/app/main.go:174-283 | an exact counter stays exact if and only if the step is neither an effective clamp nor a release under a later slot |
| `SlotAccounting.ExactWhileGentle` | internal/app/main.go:198-283 | while accounts stay and no maximum shrinks, every published counter equals its holders and is at most the maximum |
| `SlotAccounting.ShrinkingLosesTrack` | internal/app/main.go:174-225 | the concrete run in which a shrinking maximum lets two requests hold a slot of maximum one |
| `AccountPool.RunPromptWithAccountPool` | internal/app/request_dispatch.go:451-616 | result and log of the loop are those specified, event by event; and by that every exit has released what it acquired, attempts come in order, all deltas come from one attempt, which is the one whose answer is returned, and nothing is acquired exactly if the bare capacity error or the no-account error is returned |
| `AccountPool.PoolKeeps` | internal/app/request_dispatch.go:451-616 | those four properties of every log |
| `AccountPool.JudgedExactly` | internal/app/request_dispatch.go:499-616 | on the candidate's own answers: it is passed over if and only if it failed, the client heard nothing, and the request went on at both checks; otherwise it brings what ends the request |
| `AccountPool.DecidedExactly` | internal/app/request_dispatch.go:499-616 | the request ends with what the first candidate brings that is neither busy nor passed over, or else with the error of the last one passed over |
| `AccountPool.ClientHears` | internal/app/request_dispatch.go:487-497 | the client hears the text of the run of the candidate that ends the request, all of it and nothing else |
| `AccountPool.CapacityErrorExactly` | internal/app/request_dispatch.go:451-616 | for errors that do not themselves wrap the capacity error: the request ends in a capacity error, bare or wrapped, if and only if there are candidates and the check found no capacity, every account was busy, or the account that decided lost its slot between refresh and second run |
| `AccountPool.CapacityErrorAfterAcquiring` | internal/app/request_dispatch.go:540-556 | the concrete account that is acquired, refreshed and loses its slot: the result is the capacity error |
| `AccountPool.RunPromptActiveFallback` | internal/app/request_dispatch.go:341-386 | the answer, with every error, and the attempts forwarded: a second run only after a first that failed unheard with an error that asks for it; the answer returned is that of the one attempt heard |
| `AccountPool.Forward` | internal/app/request_dispatch.go:487-497 | a run forwards all its deltas in order, and output is noted if and only if one is not empty |
| `AccountPool.RunKeeps` | internal/app/request_dispatch.go:499-535 | a run inside the pool keeps the slot it runs under, and comes in order |
| `AccountPool.FirstSettlingDecides` | internal/app/request_dispatch.go:499-616 | if some candidate settles the request, by success or failure, the result is that of the first that does, and none of those before forwarded a non-empty delta; otherwise there is no success and no delta was forwarded at all |
| `Candidates.BeforeIsRank` | internal/app/account_pool.go:154-190 | the nested comparator is the lexicographic order of the criteria, with the email key last |
| `Candidates.BeforeIsStrictOrder` | internal/app/account_pool.go:154-190 | the comparator is a strict order, total on accounts with different keys |
| `Candidates.DispatchOrderLists` | internal/app/account_pool.go:71-80 | every candidate list holds exactly the accounts that are enabled and have artifacts, as often as they are configured, each before those that its criteria and key put behind it |
| `Strings.LessIsDictionary` | internal/app/account_pool.go:154-190 | email keys are compared by the first difference, and a beginning comes before what it begins |
| `Candidates.DispatchOrderIsUnique` | internal/app/account_pool.go:192-202 | with distinct keys the sorted list of eligible accounts is unique, whatever sort is used |
| `Candidates.DispatchOrderExists` | internal/app/account_pool.go:192-202 | and there always is one |
| `Candidates.MergeDispatchCandidates` | internal/app/request_dispatch.go:123-144 | the loop keeps the first account of every non-blank key, in order |
| `Candidates.MergedKeys` | internal/app/request_dispatch.go:123-144 | the merged list has no key twice and loses no non-blank key |
| `Candidates.MergedAreFirsts` | internal/app/request_dispatch.go:123-144 | every merged account is the first with its key, and they stand in the order of the lists |
| `Candidates.PreferredComesFirst` | internal/app/request_dispatch.go:123-144 | for any list, with duplicate and blank keys: a preferred account with a non-blank key comes first and the others follow as merged without it; one with a blank key changes nothing |
| `AccountHealth.SuccessClearsExactly` | internal/app/accounts.go:254-340 | a success leaves no configured failures and no configured error if and only if there were none, whichever copy it began with: the overlay takes zero fields from the configured account |
| `AccountHealth.ZerosComeFromStored` | internal/app/accounts.go:254-340 | field by field: a number that is zero and a text or time that is missing come from the configured account, all others from the one written back |
| `AccountHealth.OneDispatch` | internal/app/request_dispatch.go:499-616 | one turn, whether it succeeds, is retried, aborted or fails, with any outcome of refresh and relogin, changes the configured tallies by exactly its outcome; its window is that of the copy it began with and one start more, unless the account was given up or read again before it was written back |
| `AccountHealth.TurnNotes` | internal/app/account_pool.go:101-141 | a turn keeps what is configured by hand, notes when the account was used and the last of its errors that says something, and leaves the window alone if there is no quota |
| `AccountHealth.TurnCountsExactly` | internal/app/request_dispatch.go:499-616 | within one window a turn raises the configured count by one if and only if its start is not forgotten and the copy it began with, configured or listed, has the configured count |
| `AccountHealth.AbortLeavesNoTrace` | internal/app/request_dispatch.go:536-538 | a request whose context ends before a refresh changes neither copy, but for the list that accounts tried before have had rebuilt |
| `AccountHealth.DeclinedReloginForgetsStart` | internal/app/account_pool.go:224-233 | a failure whose relogin was started shortly before counts as a failure and takes nothing off the quota |
| `AccountHealth.FailuresAccumulate` | internal/app/account_pool.go:116-141 | over every run the copies agree on all tallies, and the consecutive failures are the total number of failures, aborted turns counting neither way |
| `AccountHealth.WindowCountsDispatches` | internal/app/main.go:509-551 | over every run of turns and rebuilt lists within one window the configured count is the number of turns on the chain of copies: the last turn to write its start, the turn before it in the copy it began with, and so on; the listed count is that of the run up to the last rebuilding |
| `AccountHealth.QuotaLeft` | internal/app/account_pool.go:48-59 | what is left of the hourly quota is the quota less exactly those turns |
| `AccountHealth.EveryStartCountsExactly` | internal/app/request_dispatch.go:145-191 | every turn whose start is not forgotten takes one request off the quota, if and only if no turn writes its start on a listed copy that lacks one written since the list was rebuilt; otherwise fewer are taken off |
| `AccountHealth.AbortedStartIsOverwritten` | internal/app/request_dispatch.go:536-596 | the run of an abort behind a failed refresh and a success: two starts are written, one request is taken off |
| `AccountHealth.AbortedStartSurvivesExactly` | internal/app/request_dispatch.go:536-596 | the start of an abort behind a failed refresh is counted for good if and only if the first event that rebuilds the list or writes the listed copy is not a turn that writes it; a turn itself aborted behind a failed refresh, after the list was rebuilt in its own request, decides nothing |
| `AccountHealth.SettledForGood` | internal/app/main.go:509-551 | a start that both copies count is never lost, and one that neither counts never comes back, whatever follows |
| `SqliteWriter.SubmittedIsAppliedInHandOrQueued` | internal/app/sqlite_writer.go:67-181 | in every interleaving the accepted operations are exactly those applied, in hand or queued, each once; nobody sends to or closes a closed queue; the queue keeps its bound |
| `SqliteWriter.CloseLeavesNothingBehind` | internal/app/sqlite_writer.go:112-125 | when the call that closed the queue returns, the queue is empty, the worker gone and every accepted operation applied |
| `SqliteWriter.ReturnedCloseExactly` | internal/app/sqlite_writer.go:112-125 | for every returned `Close`: everything accepted has been applied if and only if it is the call that closed the queue, or the drain has finished |
| `SqliteWriter.SecondCloseReturnsEarly` | internal/app/sqlite_writer.go:112-125 | the run in which a second `Close` has returned while an accepted save is still queued |
| `SqliteWriter.OvertakesExactly` | internal/app/sqlite_writer.go:67-110 | an operation is applied after every submission that had returned before it, if and only if it does not fall back while one of them is pending |
| `SqliteWriter.DeleteFollowsEarlierSaves` | internal/app/sqlite_writer.go:91-110 | while the writer is open an applied delete comes after every submission that had returned when it was made |
| `SqliteWriter.NeverStuck` | internal/app/sqlite_writer.go:112-161 | while a call is under way some call or the worker can step, whether or not the lock lets readers by waiting writers: a blocked sender never waits for good |
| `SqliteWriter.StepsUseUpWork` | internal/app/sqlite_writer.go:67-161 | every step uses up work, so every started call returns |
| `SqliteWriter.FullQueueLetsSaveOvertake` | internal/app/sqlite_writer.go:127-139 | for every capacity, the run in which a save is applied before all the saves queued earlier |
| `SqliteWriter.DeleteOvertakesWhileClosing` | internal/app/sqlite_writer.go:112-154 | the run in which a delete during the drain is applied before an older save |
| `Conversations.Entry.Deep` | internal/app/conversations.go:273-288 | the clone has messages of its own and reads the same |
| `Conversations.Entry.Shallow` | internal/app/conversations.go:290-295 | the copy shares its messages and reads the same |
| `Conversations.ConversationStore.FromEntries` | internal/app/conversations.go:133-143 | loading loop and trim give the loaded store value |
| `Conversations.ConversationStore.MoveToFront` | internal/app/conversations.go:406-419 | the rebuilding loop moves the id to the front |
| `Conversations.ConversationStore.Trim` | internal/app/conversations.go:421-427 | the trimming loop cuts list and map together |
| `Conversations.ConversationStore.Create` | internal/app/conversations.go:429-488 | writes only the store object; the new value is the specified one and a fresh snapshot reads as opened |
| `Conversations.ConversationStore.Continue` | internal/app/conversations.go:490-560 | writes only the store object; replaces the entry by a changed deep copy |
| `Conversations.ConversationStore.SetEnvelopeIds` | internal/app/conversations.go:580-615 | the same for the envelope ids |
| `Conversations.ConversationStore.AppendAssistantDelta` | internal/app/conversations.go:617-659 | the same for a delta, blank ones ignored |
| `Conversations.ConversationStore.Complete` | internal/app/conversations.go:661-708 | the same for completion, with the sanitised text |
| `Conversations.ConversationStore.Fail` | internal/app/conversations.go:710-756 | the same for failure, a nil error ignored |
| `Conversations.ConversationStore.Delete` | internal/app/conversations.go:758-777 | succeeds exactly for an existing conversation that is not running |
| `Conversations.ConversationStore.Get` | internal/app/conversations.go:819-827 | returns a shallow copy that reads as the stored conversation |
| `Conversations.ReadThenRun` | internal/app/conversations.go:819-827 | a snapshot and any entry sent earlier still read the same after any sequence of further operations |
| `ConversationOrder.StaysInStep` | internal/app/conversations.go:406-777 | every operation keeps the list duplicate-free, equal to the map's keys and within the bound |
| `ConversationOrder.CreateEvictsTheLast` | internal/app/conversations.go:429-488 | a creation takes an unused id, stands first, and evicts exactly the last entry of a full list, never itself |
| `ConversationOrder.DeleteRemovesOne` | internal/app/conversations.go:758-777 | a deletion removes that one conversation, and only if it is not running |
| `ConversationOrder.SortedIffClockIsNewest` | internal/app/conversations.go:406-560 | an operation keeps the list sorted by update time if and only if no other remaining entry is newer than the clock reading it took before the lock |
| `ConversationOrder.RunsKeepOrder` | internal/app/conversations.go:406-777 | over every run list and map agree, and with clock readings in lock order the list stays sorted |
| `ConversationOrder.LoadedInStep` | internal/app/conversations.go:133-143 | a loaded store is in step if and only if no id it keeps occurs twice among the loaded entries |
| `ConversationLife.RevisedSound` | internal/app/conversations.go:490-756 | every operation keeps streaming confined to the last message, an answer of a running conversation |
| `ConversationLife.RunsAreSound` | internal/app/conversations.go:429-777 | the same for every conversation of every reachable store |
| `ConversationLife.HistoryIsKept` | internal/app/conversations.go:490-756 | no operation changes a message other than an open answer at the end |
| `ConversationLife.AnswerIsItsDeltas` | internal/app/conversations.go:562-756 | the last message is an open answer exactly if deltas came since the last completion or question, and it is their concatenation, failures in between included |
| `ConversationLife.RunProjects` | internal/app/conversations.go:429-777 | as long as a conversation stays in the store, it is what the operations on it alone make of it |
| `ConversationLife.CreatedAnswerIsItsDeltas` | internal/app/conversations.go:429-777 | the two together, for a conversation created in any store and any further run that keeps it |
| `ConversationReads.ReadsAsCalled` | internal/app/conversations.go:429-777 | whatever calls follow its creation, the user messages of a conversation are the trimmed prompts and attachments asked, in order, and its completed answers the sanitised texts and attachments of its completions; all other messages are open or failed answers |
| `ConversationReads.KeptReadsAsCalled` | internal/app/conversations.go:429-777 | the same for a conversation created in any store, through any run that keeps it |
| `ConversationReads.CreatedAsPreferred` | internal/app/conversations.go:429-488 | a conversation is created first in the list under the trimmed id the request prefers, if there is one and it is not taken, or else under the one drawn, and asks what the request asks |
| `ConversationReads.FieldsAsCalled` | internal/app/conversations.go:429-777 | every field of a conversation is what the last call that sets it says, and the rest are as created |
| `ConversationReads.OpenAnswerAsCalled` | internal/app/conversations.go:562-756 | an open answer has no attachments and is streaming if the last call on it was a delta, and else failed |
| `ConversationReads.ReturnsTrimmed` | internal/app/conversations.go:617-625 | a delta loses exactly the carriage returns at its end |
| `ConversationLife.LateDeltaReopens` | internal/app/conversations.go:617-708 | a delta after completion opens a second answer and makes the conversation undeletable again |
| `Sessions.SessionStore.PersistConversationSession` | internal/app/conversations.go:1008-1116 | the statement sequence with its failure branches gives the specified tables |
| `Sessions.TurnWrites` | internal/app/conversations.go:1008-1116 | row by row, what a turn writes: its own session, active and with its turns counted, the stale mark on another session found active, and the step it adds, unless a statement fails; nothing else |
| `Sessions.OthersWrite` | internal/app/sqlite_store.go:641-724 | marking changes the status of one session; deleting removes exactly the sessions of the conversation and those of the thread, with their steps |
| `Sessions.OneActiveExactly` | internal/app/conversations.go:1085-1093 | a turn leaves one active session per conversation, unless exactly the old one could not be found or marked and the new one was saved |
| `Sessions.StepsExactly` | internal/app/conversations.go:1093-1116 | a turn keeps the step rows at 0 to turn count less one if and only if no due step statement fails; a repeated turn adds none |
| `Sessions.OthersKeep` | internal/app/sqlite_store.go:641-724 | marking and deleting keep both properties |
| `Sessions.SessionsStayExact` | internal/app/conversations.go:1008-1116 | over every run of turns, invalidations and deletions both properties hold |
| `ResponsesStream.StartKeeps` | internal/app/main.go:2329-2358 | opening the stream under the lock writes the opening events once and in order |
| `ResponsesStream.StepOk` | internal/app/main.go:2311-2552 | every step of the handler and of every keep-alive goroutine keeps the stream invariant |
| `ResponsesStream.StreamGrammar` | internal/app/main.go:2311-2552 | in every interleaving: gapless numbers, the four opening events, deltas and at most one reasoning.done, then one closing form with at most one terminal event |
| `ResponsesStream.TextReachesTheClient` | internal/app/main.go:2492-2552 | without a failed write the stream closes as completed, and its text deltas are the final text if and only if the text emitted before was a prefix of it |
| `ResponsesStream.ReasoningCanFollowItsEnd` | internal/app/main.go:2366-2399 | the run in which a reasoning delta follows reasoning.done |
| `ResponsesStream.KeepAliveCanComeLast` | internal/app/notion_client.go:1131-1158 | the run in which a keep-alive event follows the terminal event |
| `ResponsesTrace.CallbackTakenExactly` | internal/app/main.go:2366-2412 | in every run a callback is taken up if and only if it says something and, for reasoning, that is not suppressed; the warm-up only if it is asked for, and only once |
| `ResponsesTrace.OpeningSucceedsExactly` | internal/app/main.go:2329-2358 | opening succeeds if and only if its four events get on the wire |
| `ResponsesTrace.StepKeepsReasoningOrder` | internal/app/main.go:2366-2412 | a step puts reasoning behind reasoning.done if and only if it writes a reasoning delta when reasoning.done is on the wire |
| `ResponsesTrace.WireIsScript` | internal/app/main.go:2366-2412 | in every interleaving without a failed write the handler's events are those the callbacks ask for, computed from the callbacks alone, then the closing events sent so far |
| `ResponsesTrace.ReasoningOrderExactly` | internal/app/main.go:2366-2412 | in every such interleaving no reasoning delta stands behind reasoning.done, if and only if no reasoning callback, warm-up or remaining reasoning came after a text that ended visible reasoning |
| `ResponsesTrace.TerminalStaysLastExactly` | internal/app/main.go:2413-2418 | however a run goes on, the terminal event stays the last one if and only if no keep-alive event is accepted after it |
| `ResponsesTrace.QuietKeepersLeaveTerminalLast` | internal/app/notion_client.go:1131-1158 | if the keep-alive goroutines wait when the closing events begin and none ticks again, the closing events stand together and end with the terminal one |
| `ResponsesTrace.PartialTextReachesTheClient` | internal/app/main.go:2437-2490 | when the upstream run fails behind visible text and no write fails, the deltas are the text emitted, and they are the text of the completed response if and only if it is presentable in that sense |
| `Hedge.AtMostOneHedge` | internal/orchestrator/hedge.go:16-36 | in every schedule the second client is started at most once, and only after the delay |
| `Hedge.SendersNeverBlock` | internal/orchestrator/hedge.go:18-30 | no client that has its answer ever waits for room in the channel |
| `Hedge.ResultIsJustified` | internal/orchestrator/hedge.go:22-39 | with a live context the call fails only if the primary failed before the hedge was started or both failed, with the error received first; it succeeds only with a client's own answer |
| `Hedge.HedgeWritesOnlyIfItWon` | internal/orchestrator/hedge.go:22-31 | the hedge's text is on the writer if and only if the hedge won, once and whole |
| `Hedge.AnswersAreTaken` | internal/orchestrator/hedge.go:22-39 | once every started client has sent, the loop has returned or can take a message |
| `Hedge.CancelledExactly` | internal/orchestrator/hedge.go:35-36 | in every schedule the call returns the context's error only if it was cancelled, and as long as it has not returned it then can; the hedge is reported if and only if it was started |
| `Hedge.LoopEnds` | internal/orchestrator/hedge.go:22-39 | every select step uses up what is left, so the call terminates |
| `Hedge.PrimaryMayWriteAfterHedgeWon` | internal/orchestrator/hedge.go:17-31 | the run in which the primary writes after the hedge has won |
| `Hedge.PrimaryFollowsExactly` | internal/orchestrator/hedge.go:17-31 | in every schedule text of the primary stands behind the hedge's if and only if the primary writes, still at work, after the hedge's answer was taken |
| `Hedge.NothingFollowsAFinishedPrimary` | internal/orchestrator/hedge.go:17-31 | if the primary had finished when the call returned, the writer never changes again |
| `Resilience.CircuitBreaker.Allow` | internal/orchestrator/resilience.go:41-58 | admission and new state of the breaker object |
| `Resilience.CircuitBreaker.RecordSuccess` | internal/orchestrator/resilience.go:61-64 | closes the breaker and clears its counts |
| `Resilience.CircuitBreaker.RecordFailure` | internal/orchestrator/resilience.go:67-72 | counts the failure and opens the breaker at the threshold or when probing |
| `Resilience.RunIsByTheRule` | internal/orchestrator/resilience.go:34-72 | over every run: closed exactly while fewer failures than the threshold since the last success, admission exactly by the stated rule over the history, at most `halfOpenMax + 1` probes between outcomes |
| `Resilience.RejectsUntilRecovery` | internal/orchestrator/resilience.go:41-58 | an open breaker rejects every call until the recovery time has passed since the last failure |
| `Resilience.SilentProbesLockOut` | internal/orchestrator/resilience.go:41-58 | probes that never report an outcome lock the breaker for good |
| `Resilience.RetryWithBackoff` | internal/orchestrator/resilience.go:110-128 | between one and `maxRetries + 1` calls, all but the last with transient errors, and the last outcome or the interrupting error returned |

## Left out

- Text is a sequence of Unicode code points; strings that are not valid UTF-8 are not modelled.
- JSON decoding and the digging in untyped values: lines, patches and parts arrive typed, with canonical paths.
- The transcript's client counts the writes it still accepts, after which every write fails; sinks without callbacks, the warm-up call and upstream call tracing are not modelled.
- Readers: the scanner's line limit and closing the body are the end of input; the timer fires at any time it is armed.
- ResponseStore: times and durations are unbounded integers, so the saturation of `time.Duration` is not modelled; payloads are opaque.
- DispatchSlots: the read-only summaries `AvailableDispatchCapacity`, `RemainingAccountDispatchSlots` and the dispatch snapshot would only add easy members.
- AccountPool: slots are not released when an attempt panics, and panics are not modelled; resolving pinned accounts, the probe cache and the health probe appear only as the answers they give.
- AccountHealth: times are whole seconds, as stored; status, cooldown and session fields are not modelled. What a refresh and a relogin do to the counted fields is, but how they reach their outcomes is not. Saving the configuration is taken to succeed, requests come one at a time, and accounts are neither added, removed nor edited by hand meanwhile.
- Candidates: canonical email keys are given, and whether an account has usable files is an input.
- SqliteWriter: applying an operation is one step; what the statements do, their errors, the time to live and submissions with blank ids are not modelled.
- Conversations: titles, models, sources, trace, message and account ids, summaries, previews, output attachments, look-ups and the event channels with their dropped events; attachments are values, and appending always takes a new array, where Go may use spare room of the fresh clone.
- Sessions: turns without an upstream thread or with persistence switched off change nothing and are not events here; columns other than conversation, thread, turn count and status; the query's order by the text of times matters only if there are two active sessions; no two turns of a session overlap.
- ResponsesStream, ResponsesTrace: payloads, the byte framing of server-sent events, the `[DONE]` line, the error reply before the stream is open and the output policy applied to results; the handler's unlocked look at the header flag is one atomic step.
- Hedge: the direct call when there is no second client or no delay, and errors of the final write of the hedge's text, which the code ignores.
- Resilience: delays, jitter and the pool of breakers; nil breakers admit everything.
- Regular-expression heuristics, HTTP handlers, login, browser and proxy code, metrics, configuration defaults and the frontend are not part of this model.
