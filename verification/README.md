# Verified model of the tui-bindings

This project models the stateful parts of the Lua bindings for the Arcan TUI library and proves what
they keep over whole runs:

- the non-blocking stream object of `lua/nbio.c`: a 4096-byte line buffer with four delivery modes, and an
  outbound list of jobs drained by partial writes;
- the poll set and the dispatch of `lua/tui_lua.c` and `lua/nbio.c`, with callbacks that write, re-arm and
  close in turn;
- the table of child windows, the requests for child windows, and the widget life cycle of
  `lua/tui_lua.c`;
- the command lexer of `lua/examples/lash.lua`, with the code-point stepping it rests on;
- the environment as a table and back (`lua/tui_lua.c`, `lua/tui_popen.c`).

Code that updates state step by step is modelled by classes and methods with loops; each method is proved
against a function on values, and the promises are proved about those functions.

| module | content |
|---|---|
| `LineSplit` | the canonical split of a byte stream into lines |
| `ReadRuns` | what the four read modes deliver, per call and over runs |
| `LineInput` | the line buffer as the in-place code that computes it |
| `OutQueue` | write jobs as values, and as a linked list whose tail is a pointer to the last link |
| `PollSet` | the parallel arrays of descriptors and tags |
| `EventLoop`, `LoopInvariants` | streams, handlers and poll set as one state machine, and what its steps keep |
| `Delivery` | what a write queues, and that over whole runs the descriptor takes it |
| `Arming` | which data handler a dispatch leaves |
| `TagLeaks` | which registry references are left behind |
| `OneWay` | the discipline under which no wakeup is lost |
| `LostWakeups` | concrete runs in which one is |
| `WriteCompletion` | when a write handler is called, and what becomes of its poll entry |
| `Dispatcher` | the same operations carried out on the arrays |
| `WindowTable` | the parallel arrays of child windows, their compaction, and the polling loop |
| `Requests` | the eight request slots, the bit mask and the xor cookie |
| `Widgets`, `WidgetWindow` | ownership of registry references, on values and on the window's fields |
| `Utf8Step` | stepping through a string by code points |
| `Lexer`, `Tokenizer` | the lexer as functions, and in its state-updating form |
| `LexerProofs`, `Quoting` | its theorems, and quoting |
| `MessageEnd` | exactly when a message ends unexpectedly |
| `LexerSteps` | what its steps emit and blame |
| `Landing`, `Composition` | exactly when two messages can be put together, with a blank or an operator in between |
| `Junctions` | calls, and quotes directly behind a message |
| `Grammar`, `LexerReadings`, `Sentences` | what it reads stated as a grammar, word by word and in phrases |
| `Misreadings` | what it takes for an error inside numbers, names and strings |
| `Environ` | reading and printing the environment |
| `Common` | helpers |

The kernel is nondeterministic: every `read`, `write` and poll answer is a parameter. A `read` answers with a
non-empty chunk that fits the free space, would-block, the end, or an error; a `write` accepts any number of
bytes up to what was offered, would block, or refuses. Callbacks are arbitrary sequences of the modelled
operations.

## Where the code departs from what it is for

The model follows the code. Each departure below has a lemma that says exactly when it matters, and most have
one at a concrete input.

- A slice handed out at the end of the stream starts at the front of the buffer, not where the scan
  started (`lua/nbio.c:689`), so the tail is misread behind complete lines of the same call; and a callback that
  does not cancel in time is handed empty strings behind the last line (`ReadRuns.RunRefinesSplitIff`,
  `ReadRuns.CappedTableMisreadsTail`, `ReadRuns.EmptyStringBehindLastLine`).
- The callback loop lacks the zero-step break of the table loop, so at the end of the stream it ends by a
  cancel only (`ReadRuns.CallbackEndsIff`, `ReadRuns.UncancelledCallbackNeverEnds`).
- A flush that finds the descriptor dead stores its result in a shadowing variable and reports success
  (`OutQueue.FlushSuccessMeansEmptyIff`, `OutQueue.DeadDescriptorReportsSuccess`).
- A read removal takes the write entry of the descriptor along and reports a tag for write entries only
  (`lua/tui_lua.c:3119-3159`); the read side is shifted one element too far. Hence a change of the data
  handler is safe only when nothing waits to be written (`LoopInvariants.DataHandlerKeepsIff`,
  `LostWakeups.TwoWayLosesWakeup`).
- The variable that should hold the tag of a removed read entry is then released with whatever it held: in the
  disarming of a data handler, the tag that was dispatched; in `data_handler` and `close`, an uninitialised
  value. The model takes that value as a parameter (`LoopInvariants.DataHandlerKeepsIff`, `LoopInvariants.CloseKeepsIff`,
  `LostWakeups.StaleTagLosesReader`).
- So the reference of a read entry is left behind when the entry goes, unless the one released in its place happens to
  be the same; and so is that of a write entry that finds no room (`TagLeaks.OpIdle`, `TagLeaks.DisarmLeaksIff`).
- `write` does not look at the answer of the poll set (`LoopInvariants.WriteKeepsIff`,
  `LostWakeups.LateWriterIsNotPolled`).
- Without a write handler the poll entry of a finished queue stays (`WriteCompletion.WriteEntryGoesIff`).
- `compact` moves as many slots as lie behind the hole plus one, so a word from behind each array comes in: the
  first entry of the second array, and the parent pointer. A window registers at most 63 children in its
  whole life (`WindowTable.RegisteredIff`, `WindowTable.LaterSlotsEmptyIff`,
  `WindowTable.SixtyFourthChildIsNotRegistered`).
- A request refused because all slots are busy keeps the closure reference it took on entry
  (`Requests.RefusedLeaksIff`, `Requests.NinthRequestLeaks`).
- A readline stores its state reference over whatever its setup callbacks left there
  (`Widgets.ReadlineLosesIff`, `Widgets.ReadlineOverListViewLeaks`), and also when they have closed the window,
  which then keeps the reference for ever (`Widgets.LinearOwnership`, `Widgets.SetupThatClosesLeaks`).
- Negative steps of `utf8_step` always fail (`Utf8Step.BackwardFails`).
- The count pass of the environment printer skips names set to false, and keys that are no strings
  (`lua/tui_popen.c:280-281`). The fill pass skips neither, and by printing a number it changes the key of the
  traversal (`Environ.PassesAgreeIff`, `Environ.FalseNameIsWritten`, `Environ.NumericKeyIsWritten`).
- `utf8_step` ends at a NUL byte, the driver of the lexer does not. What follows the byte is taken as one chunk, a
  word of simple mode that ends there stays in the buffer and makes the default state raise its
  "unexpected end" (`MessageEnd.UnexpectedEndIff`, `MessageEnd.NulBehindLetter`), and in a number or a symbol an
  empty chunk raises a Lua error (`MessageEnd.RaisesIff`). A word with more behind the byte is emitted at offset -1.
- A quote behind a word of simple mode ends the word and opens nothing (`Junctions.QuoteEndsWordIff`).
- Two messages with a blank between them do not always read as each of them does: a backslash at the end of a word
  takes the blank, a byte that continues a sequence sticks to it, NUL bytes have the effects above, and a minus
  behind a tab or a line feed is a sign behind an operator and none at the front of a message
  (`Composition.CompositionalIff`, `Composition.EscapedBlank`, `Composition.SequenceCutOff`,
  `Composition.WordWithNul`, `Composition.TabbedMinus`).
- The lexer reads `.5` as `5`, and `-b` or `-x` as an error (`Sentences.LeadingPointIsDropped`,
  `Sentences.MinusBeforeName`). A comment says that simple mode ignores numbers
  (`lua/examples/lash.lua:902`), but a digit starts a number in both modes (`LexerReadings.NumeralReads`). A string
  that starts inside a UTF-8 sequence does not survive quoting (`Quoting.QuotingRoundTripsIff`). A token carries the
  offset at which it was emitted. Its fourth element and the fourth result of `tokenize_command` are undefined
  globals, always nil, and are not modelled.

## Model

| member | source | states |
|---|---|---|
| `LineSplit.ThroughLfMeaning` | lua/nbio.c:669-676 | the scan stops behind the first line character, or finds none |
| `LineSplit.SplitShape` | lua/nbio.c:660-693 | every line is non-empty, fits the buffer, holds the line character at its end or not at all, and does hold it unless it is a full block or the last line |
| `LineSplit.TextIs` | lua/nbio.c:669-676 | stripping takes the line character from lines that end with it, and nothing else |
| `LineSplit.SplitCovers` | lua/nbio.c:660-693 | the lines of the canonical split put together are the stream |
| `LineSplit.PiecesAppend` | lua/nbio.c:660-693 | lines once decided stay decided whatever arrives later |
| `LineSplit.RestUndecided` | lua/nbio.c:678-692 | what is left is shorter than the buffer and free of the line character |
| `ReadRuns.RunRefinesSplitIff` | lua/nbio.c:695-833 | over any line-wise run, what is handed over followed by the split of what is buffered and still to come is the split of everything, exactly when no call strays: misreads the tail, or goes on with empty strings because the callback did not cancel in time |
| `ReadRuns.DrainedRunIsSplitIff` | lua/nbio.c:695-833 | a run that has emptied the buffer handed over the canonical split of its input, exactly when no call strayed |
| `ReadRuns.ChunkingAndModeDoNotMatter` | lua/nbio.c:695-833 | two clean runs over the same bytes deliver the same lines, however the bytes were cut and whichever modes were mixed |
| `ReadRuns.CallTakesSplitPrefixIff` | lua/nbio.c:765-832 | one call takes the front of the split and leaves the rest, exactly when it does not stray |
| `ReadRuns.TableDeliversSplitIff` | lua/nbio.c:792-820 | what a capped table read at the end delivers is the front of the split, exactly when it does not misread the tail |
| `ReadRuns.LineRunsAreClean` | lua/nbio.c:821-832 | single-line reads always return and never meet the misread tail |
| `ReadRuns.UncappedRunsAreClean` | lua/nbio.c:796-815 | nor do uncapped table reads |
| `ReadRuns.AliveIff` | lua/nbio.c:744-833 | the second return value is "not alive" exactly at the end of the stream, unless an unbuffered read still has something |
| `ReadRuns.RawTakesAll` | lua/nbio.c:744-752 | an unbuffered read hands over everything as one string |
| `ReadRuns.CallTakes` | lua/nbio.c:792-832 | a single-line read takes a line if there is one, a table read all there are up to its cap |
| `ReadRuns.CallbackTakes` | lua/nbio.c:773-784 | a callback read goes on until the first cancel or until nothing is left; at the end of the stream until the first cancel |
| `ReadRuns.EndFlagIff` | lua/nbio.c:778-780 | the callback is handed the end flag exactly when the stream has ended and what comes with it is no complete line |
| `ReadRuns.CappedTableMisreadsTail` | lua/nbio.c:678-690 | a concrete run of two capped table reads that hands out a line feed for the tail |
| `ReadRuns.CallbackEndsIff` | lua/nbio.c:773-784 | the callback loop returns exactly before the end, on an empty buffer, or on a cancel |
| `ReadRuns.FedLines` | lua/nbio.c:773-784 | the strings the callback is handed are the buffered lines in order, then what is taken for the tail, then empty strings |
| `ReadRuns.CallbackDeliversSplitIff` | lua/nbio.c:773-784 | at the end the callback is handed lines of the split from the first on and nothing else, exactly when it cancels before they run out and the tail is not misread |
| `ReadRuns.EmptyStringBehindLastLine` | lua/nbio.c:773-784 | a concrete callback that cancels one call too late and is handed an empty string |
| `ReadRuns.UncancelledCallbackNeverEnds` | lua/nbio.c:773-784 | a concrete tail on which no number of answers without a cancel ends the loop |
| `ReadRuns.LineAtEndDrainsIff` | lua/nbio.c:821-832 | a single-line read at the end reports "not alive", and has emptied the buffer exactly when at most one line was left |
| `ReadRuns.TableAtEndDrainsIff` | lua/nbio.c:796-820 | the same for a table read and its cap |
| `ReadRuns.LinesDrainAtEnd` | lua/nbio.c:705-714 | repeated single-line reads at the end hand out the split of what is buffered, line after line |
| `ReadRuns.RunConserves` | lua/nbio.c:695-833 | before the end and without stripping, in any mixture of the four modes, delivered bytes followed by buffered bytes are the bytes read |
| `ReadRuns.RunLeavesRoom` | lua/nbio.c:716-742 | the buffer is never full between calls, so a request for zero bytes is never made |
| `ReadRuns.CallLeavesRoom` | lua/nbio.c:716-742 | every call that returns leaves room, at the end of the stream too |
| `LineInput.StreamInput.Nextline` | lua/nbio.c:660-693 | the scan over the buffer in place, and when its slice is not where the scan began |
| `LineInput.StreamInput.Fill` | lua/nbio.c:716-742 | what the system call appends, when the stream counts as ended, and when the call returns at once |
| `LineInput.StreamInput.Slide` | lua/nbio.c:759-762 | what lies behind the consumed bytes comes to the front |
| `LineInput.StreamInput.ReadRaw` | lua/nbio.c:744-752 | unbuffered read: result, second return value and buffer are the outcome of module ReadRuns |
| `LineInput.StreamInput.ReadLine` | lua/nbio.c:821-832 | the same for a single-line read |
| `LineInput.StreamInput.AppendLines` | lua/nbio.c:792-816 | the table loop appends the lines of the split and slides once |
| `LineInput.StreamInput.ReadTable` | lua/nbio.c:792-820 | the same for a table read with a cap |
| `LineInput.StreamInput.FeedLines` | lua/nbio.c:765-786 | the callback loop passes the invocations in order and stops at the first cancel |
| `LineInput.StreamInput.ReadCallback` | lua/nbio.c:765-791 | which invocations are made, with which end flag; their strings, the buffer and the second return value are the outcome of module ReadRuns |
| `LineInput.StreamInput.LfStrip` | lua/nbio.c:835-849 | sets the strip flag and, if given, the line character |
| `LineInput.TableLoopIsOutcome` | lua/nbio.c:804-816 | the loop over positions in the buffer computes the outcome stated on the split |
| `LineInput.ScanInvokes` | lua/nbio.c:774-784 | the scan after a number of lines yields the arguments of the next invocation |
| `LineInput.ScanTail` | lua/nbio.c:678-692 | behind the complete lines the scan hands out the tail's length from the front of the buffer |
| `OutQueue.InterleavingConserves` | lua/nbio.c:234-311 | under any interleaving of queueing and partial writes, bytes taken by the descriptor followed by those pending are all queued buffers in order, and only the head is partly sent |
| `OutQueue.DrainConserves` | lua/nbio.c:234-265 | no byte is lost, repeated or reordered by a drain, wherever it stops |
| `OutQueue.DrainStatus` | lua/nbio.c:234-265 | only the head is partly sent; result 1 means an empty list, and that everything unsent is on the wire |
| `OutQueue.DrainFinishes` | lua/nbio.c:238-264 | when every write takes at least one byte the drain ends with an empty list |
| `OutQueue.DrainResumes` | lua/nbio.c:240-245 | stopping for want of space and resuming is the same as never having stopped |
| `OutQueue.DrainAddsUp` | lua/nbio.c:238-264 | a drain takes as many bytes as the counts of the kernel add up to, up to the answer it stops at; which answer that is, and the result |
| `OutQueue.HeadFinishes` | lua/nbio.c:248-263 | one answer that takes the rest of the head finishes it |
| `OutQueue.FlushSuccessMeansEmptyIff` | lua/nbio.c:99-143 | a flush that reports success has emptied the queue exactly when no wait finds the descriptor dead after rounds that neither empty the queue, fail nor time out; one that reports failure has not |
| `OutQueue.FlushDecided` | lua/nbio.c:99-143 | the first round that empties the queue, fails, finds the deadline passed or the descriptor dead decides a flush, with what its writes leave and which answer; without one it goes on |
| `OutQueue.FlushOfLiveDescriptor` | lua/nbio.c:99-143 | while no wait finds the descriptor dead, success means that everything pending was sent |
| `OutQueue.DeadDescriptorReportsSuccess` | lua/nbio.c:125-136 | a concrete flush that reports success with a byte still queued |
| `OutQueue.FlushConserves` | lua/nbio.c:99-143 | however a flush ends, it loses no byte |
| `OutQueue.BalancedAppend` | lua/nbio.c:282-311 | queueing keeps the accounts: wire and unsent bytes are what was offered, counters are pending sizes and bytes sent |
| `OutQueue.BalancedAdvance` | lua/nbio.c:248-263 | so does every partial or completing write |
| `OutQueue.StreamOutput.PushTail` | lua/nbio.c:302-308 | storing through the tail link appends to an acyclic list and leaves the tail at its one null link |
| `OutQueue.StreamOutput.QueueOut` | lua/nbio.c:282-311 | the list grows by one unsent job at the end, and the accounts stay balanced |
| `OutQueue.StreamOutput.PopHead` | lua/nbio.c:252-263 | the head leaves, and an emptied list puts the tail back on the head link |
| `OutQueue.StreamOutput.Wrote` | lua/nbio.c:248-263 | a write of some bytes advances the head and both counters |
| `OutQueue.StreamOutput.Send` | lua/nbio.c:247-263 | the head of the list moves on, or leaves when it is finished |
| `OutQueue.StreamOutput.ProcessWrite` | lua/nbio.c:234-265 | the loop over the pointers is the drain on values, for every sequence of kernel answers |
| `OutQueue.StreamOutput.EnsureFlush` | lua/nbio.c:99-143 | the flush loop is the flush on values, with its shadowed result |
| `OutQueue.StreamOutput.DropAllJobs` | lua/nbio.c:267-280 | the list is empty, the counters zero, the tail on the head link |
| `PollSet.RemoveFdShape` | lua/tui_lua.c:3138-3159 | removal keeps every other pair and its order |
| `PollSet.RemoveFdIsMapRemove` | lua/tui_lua.c:3113-3162 | while each descriptor appears at most once, removal is removal from the map |
| `PollSet.RemoveFdDistinct` | lua/tui_lua.c:3113-3162 | removal keeps descriptors distinct and clears the removed one |
| `PollSet.RearmIsMapUpdate` | lua/tui_lua.c:3071-3162 | remove-then-add is a map update, and keeps descriptors distinct |
| `PollSet.NbioJobs.Queue` | lua/tui_lua.c:3071-3111 | appends one pair to one direction unless the descriptor is invalid or 32 are in use |
| `PollSet.NbioJobs.Dequeue` | lua/tui_lua.c:3113-3162 | which entries go in which mode, what is reported, and that the shift beyond the end is not seen |
| `PollSet.Take` | lua/tui_lua.c:3138-3159 | the search in one direction and the shifts that close the gap in both arrays |
| `OneWay.OneWayNeverLosesWakeup` | lua/nbio.c:387-444 | from an empty loop, with one-way descriptors, at most 32 open streams per direction, no handler that closes its own stream and no stray release of another stream's tag, no reachable state has lost a wakeup, whatever the callbacks write, arm, open and close |
| `OneWay.TameRunIsSafe` | lua/nbio.c:1231-1321 | under that discipline every step meets the exact safety condition |
| `OneWay.TameOpSafe` | lua/nbio.c:529-658 | so does every operation from an invariant state |
| `OneWay.RoomForAll` | lua/tui_lua.c:3071-3111 | while no more streams of one direction are open than the poll set has places for it, each finds one |
| `LoopInvariants.NoLostWakeupFromStart` | lua/nbio.c:387-444 | from an empty loop, after any safe run, a stream with unsent bytes is polled for writing under its own tag, and a stream is polled for reading exactly when it has a data handler |
| `LoopInvariants.RunKeeps` | lua/nbio.c:1231-1321 | the invariant over every run of operations and dispatches with callbacks |
| `LoopInvariants.EventKeeps` | lua/nbio.c:1231-1321 | the invariant over one dispatch, callback included |
| `LoopInvariants.SafeIff` | lua/nbio.c:529-658 | from the invariant, exactly the safe operations keep it |
| `LoopInvariants.WriteKeepsIff` | lua/nbio.c:529-658 | a write keeps it exactly when what it leaves queued finds room in the poll set |
| `LoopInvariants.DataHandlerKeepsIff` | lua/nbio.c:387-444 | a change of handler keeps it exactly when nothing waits to be written, a new handler finds room, and the uninitialised reference it may release is not the tag of an entry that stays |
| `LoopInvariants.DisarmKeepsIff` | lua/nbio.c:1307-1321 | the disarming after an unwanted data handler keeps it exactly when nothing waits to be written |
| `LoopInvariants.DrainKeeps` | lua/nbio.c:1241-1270 | a drain keeps it, whether it stops, finishes or fails |
| `LoopInvariants.ForgetKeeps` | lua/nbio.c:1272-1277 | dropping the write entry of an empty queue keeps it |
| `LostWakeups.TwoWayLosesWakeup` | lua/tui_lua.c:3138-3159 | a concrete two-way descriptor whose write entry is lost to a new data handler |
| `LostWakeups.LateWriterIsNotPolled` | lua/nbio.c:648-648 | concrete runs in which the 33rd stream that is written to, or a later one, is not polled |
| `LostWakeups.StaleTagLosesReader` | lua/nbio.c:403-407 | a concrete run in which the release of a stray reference leaves another reader polled under a dead tag |
| `WriteCompletion.WriteHandlerContract` | lua/nbio.c:1240-1270 | the write handler is called exactly when a non-empty queue settles, sees it empty, and is told success exactly when every byte reached the descriptor |
| `WriteCompletion.CallsAreFilled` | lua/nbio.c:1231-1278 | over any run, with any callbacks, the write handler of a stream is called at most once for each time that something was offered to the stream |
| `WriteCompletion.FilledBetweenCalls` | lua/nbio.c:1231-1278 | between two calls of one write handler something was offered to its stream |
| `WriteCompletion.WriteEntryGoesIff` | lua/nbio.c:1241-1277 | the write entry of a queue that settles goes exactly when there is a write handler and it leaves nothing queued |
| `WriteCompletion.HandlerWorkSurvives` | lua/nbio.c:1269-1277 | what the handler queues is what is queued after the dispatch, with its poll entry |
| `Delivery.QueuedIs` | lua/nbio.c:529-658 | a write registers exactly when the stream takes writes, the argument is acceptable and every non-empty buffer finds room; then each is one job, in order, behind what was there; what is left otherwise, and when the handler is stored |
| `Delivery.FreshUnsent` | lua/nbio.c:604-636 | then what is unsent is what was unsent before, followed by all buffers |
| `Delivery.DispatchConserves` | lua/nbio.c:1241-1245 | a dispatch that does not settle keeps what the descriptor has not taken, and only that |
| `Delivery.RunBalances` | lua/nbio.c:234-311 | over any run, with any callbacks: what a descriptor took since its queue was last dropped, followed by what is queued, is what was offered since then, told from the operations and the answers of the kernel |
| `Delivery.SuccessMeansDelivered` | lua/nbio.c:1255-1269 | at any point of any run the write handler is told success exactly when every byte offered since the queue was last dropped has reached the descriptor |
| `Arming.DataInArms` | lua/nbio.c:1280-1323 | the data handler of every stream after a dispatch, told from the operations of the callback and its answer; and that the stream is polled exactly if it has one |
| `Arming.AnswerDecides` | lua/nbio.c:1305-1320 | a callback that leaves its stream alone keeps the handler exactly when it answers true |
| `Arming.LastHandlerDecides` | lua/nbio.c:1303-1304 | a handler that the callback sets or takes away last is set or gone, whatever it answers |
| `TagLeaks.OpIdle` | lua/tui_lua.c:3071-3162 | the references that no poll entry carries after an operation: those before, and that of a write entry without room, or of a read entry that went, less the one released in its place |
| `TagLeaks.DisarmLeaksIff` | lua/nbio.c:1311-1320 | dropping a data handler after its dispatch leaves nothing behind exactly when the stream is not polled for writing |
| `LoopInvariants.OpenKeeps` | lua/nbio.c:1378-1424 | a newly opened stream keeps it |
| `LoopInvariants.CloseKeepsIff` | lua/nbio.c:313-369 | closing a stream keeps it exactly when the uninitialised reference it may release is not the tag of an entry that stays |
| `Dispatcher.StreamSet.Write` | lua/nbio.c:529-658 | `write` on the arrays is the operation of the state machine |
| `Dispatcher.StreamSet.SetDataHandler` | lua/nbio.c:387-444 | the same for `data_handler` |
| `Dispatcher.StreamSet.CloseStream` | lua/nbio.c:313-369 | the same for `close` |
| `Dispatcher.StreamSet.DataIn` | lua/nbio.c:1280-1323 | the same for the dispatch of a readable descriptor, with the callback's operations |
| `Dispatcher.StreamSet.DataOut` | lua/nbio.c:1231-1278 | the same for a writable descriptor, and what the write handler is told |
| `Dispatcher.StreamSet.Remove` | lua/tui_lua.c:3113-3162 | removal of entries together with the release of the tag that is reported |
| `Dispatcher.StreamSet.Insert` | lua/tui_lua.c:3071-3111 | a fresh tag and a new entry, or the answer that there is no room |
| `WindowTable.TableRefinesFamily` | lua/tui_lua.c:746-759 | over any run of arrivals, closes and bad-context reports, slot 0 is the window, then exactly the live registered children in arrival order, in both arrays |
| `WindowTable.StepKeepsLayout` | lua/tui_lua.c:1533-1576 | one arrival, close or report keeps that layout |
| `WindowTable.LeaveIsFilter` | lua/tui_lua.c:1533-1555 | those who stay keep their order: a stable filter on pairs |
| `WindowTable.ClosingChildLeaves` | lua/tui_lua.c:1566-1576 | the child that closes is the one that leaves: the first with its address, and nobody if there is none |
| `WindowTable.LaterSlotsEmptyIff` | lua/tui_lua.c:1540-1551 | the later slots are empty exactly when no child has ever left |
| `WindowTable.RegisteredIff` | lua/tui_lua.c:746-759 | an arrival is registered exactly while fewer than 63 children have ever been |
| `WindowTable.OneChildLeavesMark` | lua/tui_lua.c:1540-1551 | one child that comes and goes leaves the last slot taken |
| `WindowTable.SixtyFourthChildIsNotRegistered` | lua/tui_lua.c:746-759 | after 63 children have come and gone the next one is not registered |
| `WindowTable.PartlyNext` | lua/tui_lua.c:1535-1554 | looking at one more child keeps the arrays or closes one hole in both |
| `WindowTable.DropLowersCount` | lua/tui_lua.c:1800-1813 | a report about a child lowers the number of children |
| `WindowTable.PollUntilFine` | lua/tui_lua.c:1905-1922 | what is left are the children no report has named; the answer is "alive" exactly when a poll was fine, "not alive" exactly when a report, and then the last, named the window itself; at most as many rounds name a bad context as there are children plus one, so the loop ends unless reports name none for ever |
| `WindowTable.Window.CompactInPlace` | lua/tui_lua.c:1533-1555 | the in-place loop is the compaction on pairs |
| `WindowTable.Window.CloseHole` | lua/tui_lua.c:1541-1551 | the two memory moves, with the word that comes in from behind each array |
| `WindowTable.Window.Register` | lua/tui_lua.c:746-759 | a new child takes the first free slot of both arrays |
| `WindowTable.Window.RunSubBitmap` | lua/tui_lua.c:1800-1813 | the reported children leave, the window itself is spared |
| `WindowTable.Window.Deregister` | lua/tui_lua.c:1566-1576 | the closing child leaves its parent's table |
| `Requests.ProtocolFromStart` | lua/tui_lua.c:669-693 | for any order of requests and replies with any 32-bit ids: at most eight outstanding, in distinct slots, and granted requests are those whose closure ran, once each, plus those outstanding |
| `Requests.RunSound` | lua/tui_lua.c:669-693 | the invariant over every run |
| `Requests.ReplyMatchesIff` | lua/tui_lua.c:669-693 | a reply is accepted exactly when it carries the id of an outstanding request; it consumes that one and runs its closure |
| `Requests.RefusedLeaksIff` | lua/tui_lua.c:1753-1756 | a request leaves no reference behind exactly when a slot is free |
| `Requests.NinthRequestLeaks` | lua/tui_lua.c:1753-1756 | the ninth request in a row leaves its reference behind |
| `Requests.SlotOfWireId` | lua/tui_lua.c:1771-1772 | the cookie and the slot are recovered from the id on the wire |
| `Requests.WireIdOfSlot` | lua/tui_lua.c:672-672 | an id whose slot is in range is the one sent for that slot |
| `Requests.BusyChanges` | lua/tui_lua.c:1764-1768 | setting and clearing a bit adds and removes that slot and no other |
| `Requests.FullMask` | lua/tui_lua.c:1753-1756 | the mask is 255 exactly when all eight slots are taken |
| `Requests.FirstClearIsLowestFree` | lua/tui_lua.c:1764-1764 | the first clear bit is the lowest free slot |
| `Requests.PendingRequests.RequestWindow` | lua/tui_lua.c:1753-1775 | a request on the mask and the array is the request of the ledger |
| `Requests.PendingRequests.OnSubwindow` | lua/tui_lua.c:669-693 | a reply on the mask and the array is the reply of the ledger, and yields the closure to run |
| `Widgets.LinearOwnership` | lua/tui_lua.c:1059-1135 | over any run, with callbacks that install, revert and close as they please: no reference is released twice, live references are those in the fields and the lost ones, there are exactly as many lost ones as readline setups that left a widget installed, closing an open window releases the rest, and a closed window keeps nothing else alive exactly when no readline had it closed by its own setup |
| `Widgets.RunOwned` | lua/tui_lua.c:1059-1135 | the accounts over every run |
| `Widgets.CompleteOwned` | lua/tui_lua.c:1115-1135 | a completed widget gives up its references exactly once, whatever its callback does |
| `Widgets.ExecOwned` | lua/tui_lua.c:2314-2423 | every operation keeps the accounts, with nested setup callbacks |
| `Widgets.RevertOwned` | lua/tui_lua.c:1059-1113 | reverting releases what the widget holds and nothing else |
| `Widgets.CloseOwned` | lua/tui_lua.c:1557-1564 | closing releases everything but what was lost |
| `Widgets.ReadlineLosesIff` | lua/tui_lua.c:2314-2423 | a readline overwrites a live reference exactly when its setup callbacks, nested ones included, leave another widget behind |
| `Widgets.ReadlineHolds` | lua/tui_lua.c:2314-2423 | a readline whose setup leaves it alone holds exactly the callbacks it was given, its closure and its state, each under a fresh reference |
| `Widgets.ReadlineOverListViewLeaks` | lua/tui_lua.c:2314-2423 | a concrete readline whose setup installs a list view loses the state reference of the list view |
| `Widgets.SetupThatClosesLeaks` | lua/tui_lua.c:2406-2420 | a readline whose setup closes the window keeps its state reference alive, whatever comes after |
| `Widgets.RunClosedTakenIff` | lua/tui_lua.c:2406-2420 | a closed window holds a widget exactly when a readline had it closed by its own setup, told from the operations alone |
| `Widgets.ExecOutline` | lua/tui_lua.c:2314-2423 | what is installed after an operation depends on mode and openness alone |
| `WidgetWindow.Window.RevertWidget` | lua/tui_lua.c:1059-1113 | the fields after a revert |
| `WidgetWindow.Window.ReadlineWidget` | lua/tui_lua.c:2314-2423 | the fields after a readline, with the setup callbacks before the state is stored |
| `WidgetWindow.Window.PlainWidget` | lua/tui_lua.c:2571-2612 | the fields after a list view or a buffer view |
| `WidgetWindow.Window.CloseWindow` | lua/tui_lua.c:1557-1564 | the fields after a close |
| `WidgetWindow.Window.CallbackRevert` | lua/tui_lua.c:1115-1135 | the fields after a completion, with the callback between the revert and the two releases |
| `Utf8Step.SearchStep` | lua/tui_lua.c:3026-3069 | the loops compute the step function, for steps of either sign |
| `Utf8Step.StepAdds` | lua/tui_lua.c:3053-3061 | a step of m and then n is a step of m + n whenever the first succeeds |
| `Utf8Step.ForwardAdds` | lua/tui_lua.c:3053-3061 | the same for sequences, failures included |
| `Utf8Step.StepsVisitStarts` | lua/tui_lua.c:3053-3067 | steps of one from the front visit the starts in order, then the position behind the end, then fail |
| `Utf8Step.StartsAreStarts` | lua/tui_lua.c:3053-3061 | the visited positions are exactly those of bytes that do not continue a sequence |
| `Utf8Step.ChunksCover` | lua/examples/lash.lua:948-957 | the chunks the tokenizer's loop feeds put together are the message |
| `Utf8Step.ChunkShape` | lua/examples/lash.lua:948-957 | each chunk is one start with what continues it |
| `Composition.CompositionalIff` | lua/examples/lash.lua:620-960 | for any `a` read without an error, any blank or operator (but for those that simple mode keeps in words), and any `b` that does not raise, in both modes: put together they give the tokens of `a`, the operator, those of `b` moved down, and the error of `b`, exactly when `a` has no NUL byte and no escape pending, the operator neither makes a call of a name nor is a sign, neither message starts inside a sequence, no NUL byte of `b` delays a word, and no minus turns from a sign into an operator or back; or the separator is a blank, `b` is empty and the one NUL byte of `a` is its last byte |
| `Landing.LandsIff` | lua/examples/lash.lua:620-960 | behind any character that leads back to the default state, a `b` that starts a sequence is read as it is alone exactly when no NUL byte delays a word and no sign turns |
| `Landing.LandedIff` | lua/examples/lash.lua:620-960 | as long as no sign turns, the whole raises exactly when `b` raises alone |
| `Junctions.CallGoesOnIff` | lua/examples/lash.lua:828-840 | a parenthesis behind whatever ends in a name makes a call of that name and keeps its namespace; what follows is read as it is alone, under the same exact condition |
| `Junctions.QuoteEndsWordIff` | lua/examples/lash.lua:719-723 | a quote behind a word of simple mode acts as a blank |
| `Junctions.QuoteOpensIff` | lua/examples/lash.lua:658-661 | a quote behind anything else opens a string: what it begins is read as it is alone, exactly when no NUL byte delays a word |
| `Composition.WordWithNul` | lua/examples/lash.lua:948-957 | a concrete word of simple mode with a NUL byte inside, whose token stands at -1 |
| `Composition.SequenceCutOff` | lua/examples/lash.lua:948-957 | a concrete byte that is read as nothing, and as an error in front of a blank and a digit |
| `Composition.TabbedMinus` | lua/examples/lash.lua:671-684 | a concrete minus behind a tab that is a sign behind an operator and none alone |
| `Composition.EscapedBlank` | lua/examples/lash.lua:704-738 | a concrete word that takes the blank behind its backslash |
| `LexerSteps.InvalidIsPart` | lua/examples/lash.lua:690-694 | the error about an invalid token names a part of the message no longer than it |
| `LexerSteps.StepTokens` | lua/examples/lash.lua:620-900 | every step, in any state, keeps the tokens there are and emits its own at the current offset |
| `LexerSteps.StepBlames` | lua/examples/lash.lua:620-900 | the offset of every error is that of the chunk, or for an unterminated string and a second namespace that of the last opening quote |
| `LexerProofs.PlainIsTokenize` | lua/examples/lash.lua:904-960 | on messages without NUL bytes the whole tokenizer, for which `TokenizeCommand` is proved, is the `Tokenize` of the theorems about quoting and sentences |
| `Quoting.QuotingRoundTripsIff` | lua/examples/lash.lua:876-900 | quoting every string of a list without NUL bytes, separated by blanks, and tokenizing gives exactly that list as strings, with no error, in both modes, exactly when no string starts inside a sequence |
| `Quoting.EscapedIsOneToken` | lua/examples/lash.lua:876-900 | whatever else is escaped in a quoted string is taken as it is |
| `Quoting.QuotingWorksIff` | lua/examples/lash.lua:658-661 | one string survives quoting exactly when it does not start inside a sequence |
| `MessageEnd.UnexpectedEndIff` | lua/examples/lash.lua:622-631 | whatever the message, the "unexpected end" of the default state is raised exactly when a NUL byte that is the last or last but one cuts off a word of simple mode |
| `MessageEnd.RaisesIff` | lua/examples/lash.lua:948-957 | a message raises a Lua error exactly when its first NUL byte is its last byte and what is in front of it ends inside a number or a name |
| `MessageEnd.NoUnexpectedEnd` | lua/examples/lash.lua:622-631 | so it is never raised on a message without NUL bytes |
| `MessageEnd.NulBehindLetter` | lua/examples/lash.lua:704-712 | a concrete message of two bytes that raises it |
| `LexerProofs.TidyUpToNul` | lua/examples/lash.lua:948-957 | the discipline over everything in front of the first NUL byte, for every message |
| `LexerProofs.StepTidy` | lua/examples/lash.lua:620-900 | on each entry to the default state the buffer is empty and negation and both escape flags are clear |
| `LexerProofs.StepAlike` | lua/examples/lash.lua:620-900 | states that differ by earlier tokens and an offset take steps that differ by the same |
| `LexerProofs.SeparatorLikeEnd` | lua/examples/lash.lua:664-874 | away from a pending escape, a blank or an operator ends what the end of the message would end, and the operator leaves its own token, unless it makes a call of a name or is a sign |
| `Sentences.PhraseReads` | lua/examples/lash.lua:620-960 | any phrase of quoted strings, numerals of three bases, names, addresses, calls, and in simple mode bare words with escapes, with blanks or operators directly between them and operators among themselves, is read as exactly the tokens a grammar without lexer states assigns to it; a name in front of a parenthesis is a call |
| `Sentences.WordThenIff` | lua/examples/lash.lua:704-874 | a word of that grammar with a separator directly behind it, and any message at all behind that: the word is read as its token, an operator as itself, and the message as it is alone, exactly when it starts a sequence, no NUL byte delays a word in it and no sign turns |
| `Sentences.WordReads` | lua/examples/lash.lua:620-960 | each word of that grammar is read as its one token, with no error |
| `LexerReadings.NumeralReads` | lua/examples/lash.lua:740-825 | a numeral, signed in normal mode, decimal or with the prefix of a base, is the positional value of its digits, negated if signed |
| `LexerReadings.NumberRoundTrips` | lua/examples/lash.lua:740-825 | every number up to 2^53, signed in normal mode, written in any of the bases, is read back as it is |
| `LexerReadings.CaseIgnoredIff` | lua/examples/lash.lua:827-874 | two names are the same word exactly when they differ in case only |
| `LexerReadings.NameReads` | lua/examples/lash.lua:827-874 | a name is a truth value or a lower-case symbol, and in simple mode a string as written |
| `LexerReadings.AddressReads` | lua/examples/lash.lua:827-874 | a name behind a namespace and a point is a symbol that carries both |
| `LexerReadings.CallReads` | lua/examples/lash.lua:828-840 | a name in front of a parenthesis is a call |
| `LexerReadings.AddressCallReads` | lua/examples/lash.lua:827-874 | a call behind a namespace is a call that carries the namespace |
| `Sentences.BareReads` | lua/examples/lash.lua:704-738 | a bare word of simple mode, with what would end it escaped, is one string as written |
| `Sentences.MinusBeforeName` | lua/examples/lash.lua:803-816 | a minus in front of a name is an operator and the name, and an error exactly for names that start with the letter of a base |
| `Sentences.LeadingPointIsDropped` | lua/examples/lash.lua:646-657 | a point in front of a numeral is dropped |
| `Sentences.PointBeforeNameFails` | lua/examples/lash.lua:803-816 | a point in front of a name is an error |
| `Misreadings.DecimalReadsIff` | lua/examples/lash.lua:740-825 | a run of digits and points that begins with a digit is one number, converted as a whole, exactly unless it has a second point or the conversion refuses it; each with its error |
| `Misreadings.BaseLetterIff` | lua/examples/lash.lua:766-790 | the letter of a base is an error exactly behind anything but a single zero, which alone is the number 0 |
| `Misreadings.SecondPrefixFails` | lua/examples/lash.lua:766-790 | a second letter of the same base is an error, wherever in the number it comes |
| `Misreadings.LeadingPointReadsIff` | lua/examples/lash.lua:646-657 | a point at the front of a number counts as its radix point, although it is dropped: a second one is an error |
| `Misreadings.BinaryDigitFails` | lua/examples/lash.lua:742-750 | the first digit above 1 behind the prefix of a binary number is an error, whatever follows |
| `Misreadings.SecondNamespaceFails` | lua/examples/lash.lua:836-845 | a second point behind a namespace and a word is an error |
| `Misreadings.UnterminatedFails` | lua/examples/lash.lua:876-884 | a quoted string without its closing quote is an error, at the offset of the opening one |
| `Misreadings.InvalidIff` | lua/examples/lash.lua:620-694 | where a token may begin, exactly a chunk that is no end, begins with neither digit nor letter, and is no point, quote, blank or operator is an invalid token |
| `LexerReadings.SignReads` | lua/examples/lash.lua:664-694 | an operator character is its operator, or in simple mode a string when it is masked |
| `LexerReadings.OperatorsDiffer` | lua/examples/lash.lua:561-577 | no two operators are read as the same token |
| `LexerProofs.StepEmits` | lua/examples/lash.lua:620-900 | every return to the default state has left a token behind, except over white space |
| `Tokenizer.TokenizeCommand` | lua/examples/lash.lua:904-960 | on every message the driver loop over `utf8_step` and the state table computes the tokens, the error and its offset, or raises a Lua error |
| `Tokenizer.OneStep` | lua/examples/lash.lua:950-952 | what one step and the following substring cut off is the next chunk |
| `Tokenizer.LexState.LexDefault` | lua/examples/lash.lua:621-694 | the default state's updates and successor |
| `Tokenizer.LexState.LexWhStr` | lua/examples/lash.lua:704-738 | those of a blank-terminated string |
| `Tokenizer.LexState.LexNum` | lua/examples/lash.lua:740-825 | those of a number |
| `Tokenizer.LexState.LexSymbol` | lua/examples/lash.lua:827-874 | those of a symbol |
| `Tokenizer.LexState.LexStr` | lua/examples/lash.lua:876-900 | those of a quoted string |
| `Environ.RoundTripIff` | lua/tui_popen.c:270-327 | reading an environment and printing it, in whatever order, gives the same entries back exactly when no name occurs twice; and the fill pass gets through and fits the count pass in any case |
| `Environ.PassesAgreeIff` | lua/tui_popen.c:277-322 | for any table the fill pass gets through and writes as many entries as the count pass allowed for, exactly when every key is a name and none is set to false |
| `Environ.FalseNameIsWritten` | lua/tui_popen.c:297-322 | one name set to false is not counted and is written |
| `Environ.NumericKeyIsWritten` | lua/tui_popen.c:303-319 | one text under a number is not counted, is written, and ends the traversal |
| `Environ.PrintRestores` | lua/tui_popen.c:300-318 | printing what was read from an entry restores it, with or without `=` |
| `Environ.ReadAllSize` | lua/tui_lua.c:3369-3386 | the table has as many names as the environment entries exactly when the names are distinct |
| `Environ.GetEnv` | lua/tui_lua.c:3369-3386 | the loop over the environment builds that table |
| `Environ.TableToEnv` | lua/tui_popen.c:270-327 | the two passes over one traversal: the slots allocated, with one for the final null, what is written to them, and that it fits and gets through exactly when every key is a name and none is set to false |

## Left out

- System calls, sockets, FIFO and file opening, `popen`, pseudo-terminals, signals and the glob thread: plumbing without logic of its own.
- Streams with a pending path and no descriptor yet, `seek`, positions and wall-clock time; a flush sees its deadline as a flag in each round.
- The Lua stack, userdata and metatables; reference numbers used again; errors that unwind out of a callback.
- A stream closed by its own handler, a dispatch re-entered from a callback, and a read callback that works on the stream it is reading.
- The uninitialised reference that `data_handler` and `close` may release can also be that of a closure; the model knows references to streams only.
- Memory that cannot be allocated, except the job of a write.
- The collection of reported tags into a set before dispatch; each dispatched tag is modelled.
- EventLoop keeps the two directions of the poll set as maps; their order is proved in PollSet. Dispatcher keeps a stream's jobs as a sequence; the pointers are proved in OutQueue.
- WindowTable.PollUntilFine: takes for granted that only contexts that were passed are reported bad.
- The close of the window that owns the table, which nulls its own slot, and the `destroy` handler after it.
- Failures in the setup of an accepted child window, its hints and embedding, and pushed windows.
- Garbage collection of windows and streams.
- Composition.CompositionalIff: speaks of tokens and the error, not of the error's offset, which the error about a second namespace takes from an earlier quoted string. When `b` raises, Landing.LandedIff says that the whole raises too; not covered is a `b` that raises behind a sign that turns or a pending escape, where it depends on the number conversion whether the whole gets that far.
- TagLeaks.OpIdle: counts references as long as no entry that stays loses its own to a stray release; LoopInvariants.CloseKeepsIff and LoopInvariants.DataHandlerKeepsIff say when one does.
- Numerals with a radix point inside, and integers above 2^53, are converted by a parameter of the lexer: what `tonumber` makes of them depends on the version of Lua.
- The `opts` argument of `tokenize_command`, which can overwrite any field of the lexer's state.
- In `tui_popen_tbltoenv`, values of other kinds than text and flag, keys of other kinds than names and numbers, and what the traversal does after a number has been printed.
- Drawing, colours, key tables, clipboard, labels, blob transfers, and the rest of `lash.lua`.
