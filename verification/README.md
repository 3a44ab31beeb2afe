# A verified model of the static log hot path

The logger takes a `printf`-like statement apart at compile time, packs its arguments as bytes into a
per-thread circular queue, and turns them into text later, on one background thread. This project models
and proves that path: the queue between the two threads, the polling loop over all queues, and the three
traversals of format and arguments that have to agree without ever talking to each other.

| file | what it holds |
|---|---|
| `Bytes.dfy`, `StagingLayout.dfy` | little-endian fields, records, and what the storage of a queue holds |
| `StagingProtocol.dfy` | the queue as a state machine of single reads and writes by two threads, arbitrarily interleaved |
| `StagingProgress.dfy` | when a blocked reservation can succeed, and how fast |
| `StagingBuffer.dfy` | the queue as a class over a byte array, one call at a time |
| `Merge.dfy`, `Backend.dfy` | one poll round as a step of a k-way merge; the poller as a class with its in-place sweep |
| `StagingView.dfy` | the byte-level queue seen as the backend's buffer, and `processLogBuffer` on the bytes |
| `PollProtocol.dfy` | the poller as a state machine among any number of running, starting and exiting threads |
| `PollOrder.dfy` | the scan's choice among equal timestamps |
| `PollProgress.dfy`, `PollShutdown.dfy`, `PollExit.dfy` | which records the poller can still write; when it returns; what an exit request comes to |
| `QueueRefinement.dfy` | the queue's small steps as steps of the poller's machine |
| `Format.dfy`, `FormatChars.dfy`, `FormatScan.dfy` | the grammar of formats, a one-pass parser and its inverse; its characters; the analyser that rescans per parameter |
| `Arguments.dfy` | measuring and storing arguments |
| `LogBuffer.dfy`, `Decoder.dfy` | rendering one argument into a growing buffer; the deferred decoder |
| `FailingInputs.dfy` | concrete formats that go wrong, beside ones that do not |
| `RoundTrip.dfy`, `LogCall.dfy` | encode then decode; one logging statement from arguments to published record and back to text |
| `TimePrefix.dfy` | the time stamp in front of a line |

## What is assumed

- Accesses to single words are sequentially consistent. Every read or write of `producer_pos_`,
  `consumer_pos_` and `end_of_recorded_space_` is one step of the protocol.
- The capacity of a queue is a parameter (the code uses 1048576), and so is the number of threads.
- The poller overwrites the timestamp of the record it is about to format
  (`src/static_log_backend.cc:493`), so "the same record" means the same bytes except for that field.
- `snprintf` (section 7.21.6.5 of ISO/IEC 9899:2011) is a function from a specification and an operand to
  a text; the C type of the operand and the bound passed to it are modelled. `localtime`, the clock and
  the time stamp counter are inputs; calendar fields are in range, with a year of four digits, as they are
  for every 64-bit count of nanoseconds.
- Memory is available. Sizes are unbounded integers, since all of them are sizes of objects in memory;
  conversions to 32 and 64 bits are written out where the code performs them.
- C++ leaves open in which order the two operands of the sum in `getArgSizes` are evaluated; the model
  evaluates from left to right, the only order in which a dynamic precision precedes its string.
- A format is a C string without embedded NUL characters.
- The assertion at the head of `decodeStringFmt` (`src/static_log_backend.cc:346`) is modelled as it is
  meant: the position in the buffer is the buffer's length less the room. As written it compares a
  difference of addresses with a length, so that a build with assertions stops at the first `%s`.

## Where the code and its documentation disagree

- A static precision (`%.10s`) is documented to truncate the stored string
  (`src/static_log_internal.h:537-539`). The code compares the length with its own 32-bit cast instead:
  `Arguments.StaticPrecisionKeepsAll` says when the result is what the comment promises.
- `setLogFile` promises that later statements go to the new file. The poller obeys it
  (`PollExit.ExitObeyed`) and can go on afterwards (`PollExit.HandOffDelivers`), but the stop flag is never
  cleared, so the restarted poller returns as soon as it finds no queue registered:
  `PollProtocol.StoppedAfterHandOff` is a run that ends so. `PollShutdown.ReturnsIffAllExited` is the condition for the caller: after the
  hand-off the poller can return on its own if and only if every thread with a registered queue has
  exited; one live one keeps it going in every run (`PollShutdown.LiveKeepsPolling`). A returned poller
  writes nothing more (`PollProgress.LeftStays`), and one that has not returned can still write everything
  (`PollProgress.PollsOnIff`).
- The array of sizes belongs to the call site (`static size_t param_size[]`, `src/static_log.h:116`), not
  to the call. If another thread measures its arguments between this one's measuring and storing, storing
  goes right if and only if both agree on the size of every string (`Arguments.SharedSizes`); with a longer
  string of the other thread it reads behind its own text and writes more than it has reserved
  (`FailingInputs.SharedSizeRunsOver`).
- `decodeNonStringFmt` passes the length of the whole buffer as the bound for all conversions but `%c`;
  the contract of `LogBuffers.LogBuffer.DecodeNonString` says exactly when that writes out of bounds, and
  `FailingInputs.WideIntegerOverruns` is such an input. Its retry would repeat itself for ever for a text
  of no characters without room; no line of the logger does that, because it starts behind a prefix and a
  `%c` prints a character (`Decoder.NeverSpins`).
- After a buffer has grown, `process_fmt` still holds a position in the old one. `Decoder.FateOf` is the
  exact condition for a normal end: every character of the format has a free place, and every argument
  fits, or is the last piece and may make the buffer grow. `Decoder.ProcessFmt` is proved to end exactly
  then; `FailingInputs.GrowthThenLiteral` is an input for which it does not.
- A format with `*` makes the decoder fall behind, because it takes one parameter per specification:
  `RoundTrip.EndsWithEntry` says that decoding inverts encoding exactly for formats without stars (and
  with specifications that fit the decoder's copy). A `char*` under a conversion that is not a string
  (`%p`) does the same, because its entry of the size array is never written:
  `RoundTrip.AlignedWithoutAddresses`. `FailingInputs` has an input for each of these.

## Model

| member | source | states |
|---|---|---|
| Bytes.HeadRecord | src/static_log_backend.cc:492-508 | The size field at the front of a run of complete records delimits exactly the first of them, and what follows are the others. |
| Bytes.LeRoundTrip | src/static_log_internal.h:688-690 | A length written in `k` little-endian bytes is read back unchanged if it fits. |
| Bytes.LeBytesOf | src/static_log_internal.h:688-690 | Every byte sequence is the little-endian form of its value. |
| Bytes.LittleEndian | src/static_log_internal.h:688-690 | The weights of the bytes of a four-byte and an eight-byte field. |
| StagingLayout.LayoutFrame | src/static_log_backend.h:44-48 | Writes to bytes that are not unread disturb no published record. |
| StagingLayout.LayoutPublish | src/static_log_backend.h:74-82 | Advancing the producer position over a complete entry in free space adds exactly that record behind all others. |
| StagingLayout.LayoutWrap | src/static_log_backend.cc:591-599 | Recording the end and resetting the producer position turns the current lap into the old one, byte for byte, if the consumer is not at the front. |
| StagingLayout.LayoutRoll | src/static_log_backend.cc:623-631 | Rolling the consumer over is safe exactly where `peek` does it: the old lap is used up, and the new one starts at the front. |
| StagingLayout.LayoutConsume | src/static_log_backend.h:106-109 | Advancing the consumer by the size of the oldest record removes that record and no other. |
| StagingLayout.LayoutRestamp | src/static_log_backend.cc:492-493 | Overwriting the head's timestamp in place changes that one field of that one record. |
| StagingLayout.LevelMeansEmpty | src/static_log_backend.cc:575-579 | Equal positions mean that nothing is pending, in either lap. |
| StagingProtocol.InitialInv | src/static_log_backend.h:128-140 | A new queue satisfies the invariant. |
| StagingProtocol.StepInv | src/static_log_backend.cc:570-635 | Every single step of either thread, on snapshots however stale, keeps the invariant that ties storage, positions, bounds and history together. |
| StagingProtocol.Geometry | src/static_log_backend.cc:580-602 | In every reachable state both positions are inside the storage, a wrapped consumer is at or below the recorded end, equal positions mean empty, and at loop heads and call boundaries the private bound is sound however old the copy it came from. |
| StagingProtocol.EndFrozen | src/static_log_backend.cc:591-592 | While the producer is wrapped no step moves the recorded end, and only the consumer's roll-over ends that time. |
| StagingProtocol.FifoOrder | src/static_log_backend.cc:570-635 | In every reachable state of every interleaving, delivered followed by pending records are the committed ones in order, and the unread bytes are the pending records end to end; all but the oldest pending one are untouched. |
| StagingProtocol.StepRefinesFifo | src/static_log_backend.cc:570-635 | Each step is a FIFO step on whole records: publish appends one to the committed and to the pending ones, consume moves the oldest pending one to the delivered ones, the stamp changes the oldest one's timestamp, and every other step leaves all three alone. |
| StagingProtocol.ReservationSafety | src/static_log_backend.h:55-82 | While a reservation is held it is smaller than the storage, its bytes are contiguous, inside the storage, disjoint from everything unread, and stay so under every consumer step. |
| StagingProtocol.PeekWholeRecords | src/static_log_backend.cc:618-635 | What `peek` offers starts at the oldest record, holds only complete records, and makes the following consume possible. |
| StagingProtocol.PeekStability | src/static_log_backend.cc:489-508 | Whatever the producer does meanwhile, what was offered stays at its place and stays the same until the consumer acts. |
| StagingProtocol.GuardsHold | src/static_log_backend.h:74-82 | Both assertions of `finishReservation`, which are strict, hold for every reservation in every run, no subtraction of positions is negative, and no range guard of a step ever blocks a thread inside a call. |
| StagingProtocol.SafeDeletion | src/static_log_backend.h:118-121 | A queue is deleted only after its thread is gone and everything committed was delivered; afterwards no step is possible. |
| StagingProtocol.RetiredDeletable | src/static_log_backend.cc:541-561 | A retired empty queue passes the deletion test at once or after one more `peek`. |
| StagingProgress.IterateRuns | src/static_log_backend.cc:580-613 | One turn of the blocking loop, given as a function, is a run of the small steps. |
| StagingProgress.DrainRuns | src/static_log_backend.cc:618-635 | From every reachable state in which the consumer is between calls it can empty the queue on its own. |
| StagingProgress.ThreeTurnsSuffice | src/static_log_backend.cc:580-613 | Alternating one turn of the loop with a full drain grants every request below the capacity within three turns, from every reachable state. |
| StagingProgress.ThreeTurnsNeeded | src/static_log_backend.cc:592-599 | Three is exact: a reachable state in which the first two turns fail. |
| StagingProgress.ReservableIffSmaller | src/static_log_backend.cc:580-613 | A blocked call, wherever the consumer is, has a way forward if and only if it asks for less than the capacity. |
| StagingProgress.TryRuns | src/static_log_backend.cc:570-616 | A call that does not wait, given as a function, is a run of the producer's small steps, which gives up only after having read the consumer position. |
| StagingProgress.TryReserveDecides | src/static_log_backend.cc:580-613 | Such a call grants exactly what the producer could get without the consumer's help by trying for ever, and that is what can be placed at its position or at the front. |
| StagingProgress.ThreeCallsSuffice | src/static_log_backend.cc:580-613 | Repeated after the consumer has taken everything, it grants every request below the capacity at the third call at the latest. |
| StagingBuffers.StagingBuffer.constructor | src/static_log_backend.h:128-140 | A new queue is valid and empty, with both positions at the front and the whole storage as its bound. |
| StagingBuffers.StagingBuffer.ReserveProducerSpace | src/static_log_backend.h:55-65 | Leaves position, recorded end and bound as the protocol's producer does in one call that does not wait; succeeds exactly when the bytes can be placed at the producer position or at the front, inside the storage, apart from unread bytes and without reaching the consumer; pending records stay. |
| StagingBuffers.StagingBuffer.ReserveSpaceInternal | src/static_log_backend.cc:570-616 | The slow path, without waiting: terminates after what is one turn of the protocol's loop, and answers as that does. |
| StagingBuffers.StagingBuffer.Turn | src/static_log_backend.cc:580-602 | One pass through the loop body sets positions, recorded end and bound as the protocol's producer does on a fresh copy of the consumer position. |
| StagingBuffers.StagingBuffer.FinishReservation | src/static_log_backend.h:74-82 | Appends the filled-in record to the pending ones; the bound stays positive. |
| StagingBuffers.StagingBuffer.Peek | src/static_log_backend.cc:618-635 | Shows the bytes of the oldest contiguous records, nothing exactly when nothing is pending, and changes only the consumer position. |
| StagingBuffers.StagingBuffer.Consume | src/static_log_backend.h:106-109 | Moves the oldest record from pending to consumed. |
| StagingBuffers.StagingBuffer.RestampHead | src/static_log_backend.cc:492-493 | Replaces the timestamp of the oldest record in place and nothing else. |
| StagingBuffers.StagingBuffer.CheckCanDelete | src/static_log_backend.h:118-121 | True exactly for a retired queue with equal positions, and then nothing is pending. |
| StagingBuffers.StagingBuffer.Retire | src/static_log_backend.h:370-379 | The destroyer's mark. |
| Merge.EarliestIsLeast | src/static_log_backend.cc:539-553 | The first of the smallest head timestamps belongs to the least pending record overall, ties by registration and then queue order. |
| Merge.RoundKeeps | src/static_log_backend.cc:541-567 | A round takes one record, keeps the multiset of the others, and keeps the registry sorted within each queue. |
| Merge.MergeOneMore | src/static_log_backend.cc:541-567 | A round extends a merge: the output stays ascending and ahead of everything left. |
| Merge.RoundsMerge | src/static_log_backend.cc:536-567 | Any number of rounds emit a sequence with nondecreasing timestamps, ties in registry order, that with what is left is a permutation of what was pending, and precedes it. |
| Merge.DrainedOutputIsTheSort | src/static_log_backend.cc:536-567 | Once drained, the output is an ascending permutation of all pending records. |
| Merge.AscendingUnique | src/static_log_backend.cc:536-567 | There is only one such permutation, so the rounds have no other possible output. |
| Merge.NoStampIsLast | src/static_log_backend.cc:539-547 | The value that stands for no timestamp is later than every timestamp field but the one of all ones. |
| Backend.SweepDropsEmpty | src/static_log_backend.cc:541-561 | A sweep removes only queues with nothing pending and keeps the order of the others. |
| Backend.SweepLosesNothing | src/static_log_backend.cc:541-561 | Every registered buffer survives a sweep or is retired and empty. |
| Backend.StaticLogBackend.EnsureStagingBufferAllocated | src/static_log_backend.h:345-359 | Appends an empty buffer with the next identifier. |
| Backend.StaticLogBackend.Sweep | src/static_log_backend.cc:539-561 | The loop that erases in place, with `--i` wrapping below zero, visits each buffer once and refines filtering; its choice is the first smallest head of the survivors. |
| Backend.StaticLogBackend.ProcessLogBuffer | src/static_log_backend.cc:486-511 | Writes the oldest record's line and consumes it, or on failure changes only its timestamp; other buffers are untouched. |
| Backend.StaticLogBackend.PollRound | src/static_log_backend.cc:536-567 | One turn of the poll loop is one merge round, or finds nothing pending anywhere. |
| Backend.StaticLogBackend.ShutdownRound | src/static_log_backend.cc:536-567 | At shutdown every round leaves a record less, or a sweep less, to do. |
| Backend.StaticLogBackend.IoPoll | src/static_log_backend.cc:529-568 | At shutdown the loop ends with an empty registry and has written all pending records once, in merge order; with an exit request it returns at once and changes nothing. |
| StagingView.ViewCoherent | src/static_log_backend.h:118-121 | The byte-level queue, seen as the backend sees it, is empty when its positions are equal. |
| StagingView.CheckCanDelete | src/static_log_backend.h:118-121 | The test on positions is the test on the view. |
| StagingView.Peek | src/static_log_backend.cc:618-635 | `peek` on the bytes is `peek` on the view. |
| StagingView.PeekStamp | src/static_log_backend.cc:544-552 | The timestamp the scan reads from raw bytes is that of the oldest pending record. |
| StagingView.ReadHead | src/static_log_backend.cc:492-508 | Cutting the storage by the entry's own size field gives the oldest record. |
| StagingView.StampHead | src/static_log_backend.cc:492-493 | Stamping the bytes changes the timestamp of the first item and no other. |
| StagingView.EmitHead | src/static_log_backend.cc:506-509 | Consuming as many bytes as the size field says removes exactly the first item. |
| StagingView.ProcessLogBuffer | src/static_log_backend.cc:486-511 | `processLogBuffer` on the bytes does to the view what the backend class says. |
| PollProtocol.StepInv | src/static_log_backend.cc:529-568 | Every step of any thread, of the main program and of the poller keeps the invariant of the whole logger. |
| PollProtocol.ExactlyOnceInOrder | src/static_log_backend.cc:486-568 | For any number of threads, at every moment, the lines of a thread are a prefix of what it published, and the rest is what its queue holds. |
| PollProtocol.DeletedMeansWritten | src/static_log_backend.cc:554-560 | A buffer that left the registry belongs to an exited thread all of whose records are written. |
| PollProtocol.DeletedForever | src/static_log_backend.cc:554-560 | After deletion no run changes anything for that thread. |
| PollProtocol.LeavesClean | src/static_log_backend.cc:536-537 | The poller never returns in the middle of a record; returning by the loop condition it has written everything published by every thread. |
| PollProtocol.ChoiceStands | src/static_log_backend.cc:562-563 | The buffer a scan chose is still registered and still shows a record when it is processed. |
| PollProtocol.ChoiceIsEarliest | src/static_log_backend.cc:539-553 | None of the heads the scan saw was earlier than the chosen one, although producers went on meanwhile. |
| PollProtocol.ScanSeesAll | src/static_log_backend.cc:539-553 | The scan misses nothing: every buffer that holds a record when the poller takes the lock has been seen, with that record, when the scan is over, and the choice is no later than it. |
| PollOrder.ChoiceIsFirst | src/static_log_backend.cc:547-551 | Among buffers with the same earliest timestamp the scan chooses the one registered first, although others are deleted meanwhile. |
| PollProtocol.StoppedAfterHandOff | src/static_log_backend.h:251-271 | A reachable state after `setLogFile` in which a live thread's record is published, the poller has returned, and no step of its own is left. |
| PollProtocol.StopStays | src/static_log_backend.h:251-271 | No step ever clears the stop flag. |
| PollProgress.LeftStays | src/static_log_backend.h:251-271 | A poller that has returned writes nothing in any run, whatever the threads do, until another one is started. |
| PollProgress.Delivers | src/static_log_backend.cc:536-567 | Outside a hand-off, a poller that has not returned can write everything a thread has published so far, from whatever point of its round. |
| PollProgress.PollsOnIff | src/static_log_backend.cc:536-567 | In every reachable state outside a hand-off, the unwritten records of a thread can be written by a run without another hand-off if and only if the poller has not returned. |
| PollShutdown.LiveKeepsPolling | src/static_log_backend.cc:536-537 | One live thread with a registered queue keeps the poller from returning in every run without that thread's exit and without a hand-off, whatever the stop flag says. |
| PollShutdown.ShutdownCompletes | src/static_log_backend.cc:536-567 | Once the stop flag is set and every thread with a registered queue has exited, the poller by its own steps writes everything ever published, deletes every queue and returns, from whatever point of its round. |
| PollShutdown.DestructorCompletes | src/static_log_backend.cc:73-83 | With no live thread left, the destructor's stop request makes the poller write everything and return. |
| PollShutdown.ReturnsIffAllExited | src/static_log_backend.h:251-271 | With the stop flag set, as `setLogFile` leaves it, a running poller can return by its own steps if and only if every thread with a registered queue has exited. |
| PollExit.ExitObeyed | src/static_log_backend.cc:537-567 | With an exit requested, whatever threads do meanwhile, the poller takes a bounded number of steps more, starts at most the one scan it was about to start, and writes at most one line. |
| PollExit.ExitReturns | src/static_log_backend.h:253-257 | With an exit requested the poller returns by its own steps, whatever threads are registered, and nothing published is lost. |
| PollExit.HandOffDelivers | src/static_log_backend.h:251-271 | A whole `setLogFile`: after the request the poller returns by its own steps, and once started again it writes by its own steps everything a thread has published; the stop flag stays set. |
| QueueRefinement.InitialThread | src/static_log_backend.h:345-359 | A new queue is a thread of the poller's machine that has just registered. |
| QueueRefinement.QueueSimulates | src/static_log_backend.cc:570-635 | Every small step of a queue is a step of the poller's machine, with the poller at that queue where the step is its own, or shows nothing there; `peek` is the poller's look at the queue at the point where it reads the producer position. |
| QueueRefinement.PeekAnswers | src/static_log_backend.cc:544-552 | Whatever is published while `peek` is under way, what it offers in the end is what the poller's scan goes on with: nothing, or the timestamp of the record now at the front. |
| Format.ParamsCount | src/static_log_internal.h:320-344 | A format has one parameter per specification and one per star. |
| Format.PrintParse | src/static_log_internal.h:213-318 | Every accepted format is the print of its parse, and the parse is in the grammar of section 7.21.6.1 of ISO/IEC 9899:2011 as the analyser reads it. |
| Format.ParsePrint | src/static_log_internal.h:213-318 | Parsing the print of a grammatical format gives back its pieces. |
| Format.AcceptsExactlyGrammar | src/static_log_internal.h:213-318 | The parser accepts exactly the strings of the grammar. |
| FormatChars.ConversionCharacters | src/static_log_internal.h:185-200 | `%c` for a single character is accepted exactly for the listed conversions, `n` not among them, and asks for a string only for `s`. |
| FormatChars.ModifierCharacters | src/static_log_internal.h:140-174 | Before the conversion character exactly flags, digits, `.`, `*` and length modifiers are accepted. |
| FormatChars.PrecisionValue | src/static_log_internal.h:271-277 | A precision is read as the decimal number its digits make. |
| FormatChars.PrecisionLimit | src/static_log_internal.h:271-277 | Exactly the precisions up to 2147483647 are accepted. |
| FormatScan.ReadPrecision | src/static_log_internal.h:271-277 | Reads the value of the digits, and fails exactly when it exceeds `INT_MAX`. |
| FormatScan.ScanSpec | src/static_log_internal.h:242-312 | Scanning one specification answers with its `k`-th own parameter or goes on behind it with the count reduced. |
| FormatScan.GetParamInfo | src/static_log_internal.h:213-318 | The scan restarted for parameter `k` returns the `k`-th element of the one-pass list, the invalid type exactly beyond its end, and never looks beyond the terminating NUL. |
| FormatScan.CountFmtParams | src/static_log_internal.h:336-344 | Ends, accepts exactly the well-formed formats, and counts specifications plus stars. |
| FormatScan.AnalyzeFormatString | src/static_log_internal.h:377-409 | The array of types is the one-pass list. |
| FormatScan.InfoOfPrinted | src/static_log_internal.h:213-318 | For the print of any grammatical format the answers are the parameters of its pieces. |
| FormatScan.NoneInvalid | src/static_log_internal.h:31-54 | No parameter of a format has the type that means "no such parameter". |
| FormatScan.ScannersAgree | src/static_log_backend.cc:433-439 | The decoder's search for a conversion character stops at the very character at which the analyser ended the specification. |
| Arguments.GetArgSize | src/static_log_internal.h:486-550 | Size, precision carried on, and the one entry of the size array that changes, for scalars, strings and addresses. |
| Arguments.GetArgSizes | src/static_log_internal.h:590-612 | The recursion over the arguments returns the packed size and leaves each entry as the last precision before it determines. |
| Arguments.StoreArgument | src/static_log_internal.h:639-707 | Stores the argument's bytes, a string behind its length, and nothing else; refuses exactly the strings too long for their header. |
| Arguments.StoreArguments | src/static_log_internal.h:739-763 | Stores all arguments end to end and touches nothing outside; fails exactly if some string is too long. |
| Arguments.SizeConservation | src/static_log_internal.h:486-763 | For every argument list, storing advances by exactly what sizing returned. |
| Arguments.StarPrecedesString | src/static_log_internal.h:258-311 | In every format a string with dynamic precision comes right after the star that gives it. |
| Arguments.DynamicPrecisionCuts | src/static_log_internal.h:543-547 | A `%.*s` string is stored up to the integer passed right before it, given by its bytes, signed or unsigned; a negative one is no cut, and an argument that does not convert to an integer cuts to nothing. |
| Arguments.StaticPrecisionKeepsAll | src/static_log_internal.h:534-541 | A static precision stores as many bytes as the text has, modulo 2^32; that is the documented cut if and only if a text below 2^32 bytes is no longer than the precision, or a longer one leaves just the precision as remainder. |
| Arguments.SharedSizes | src/static_log.h:116-124 | With whatever sizes another call left in the shared array, storing stays inside every text and gives the right bytes if and only if both calls agree on every string's size. |
| LogBuffers.Snprintf | src/static_log_backend.cc:361 | Writes at most the bound, the text cut to make room for the NUL, and nothing else. |
| LogBuffers.LogBuffer.Resize | src/static_log_backend.cc:197-210 | A larger buffer with the old contents in front. |
| LogBuffers.LogBuffer.DecodeNonString | src/static_log_backend.cc:244-339 | A text that fits is printed in place; otherwise `%c`, or any text at the very front, grows the buffer once to twice the text and keeps what was in front; it runs over the end exactly for other conversions behind the front, and never ends exactly for an empty text without room. |
| LogBuffers.LogBuffer.DecodeString | src/static_log_backend.cc:343-382 | A longer text grows the buffer to fit with one character to spare; one as long as the room loses its last character. |
| Decoder.CutSpec | src/static_log_backend.cc:433-450 | The copied specification is the text of the very piece the analyser read. |
| Decoder.DecodeSpec | src/static_log_backend.cc:453-470 | Fetches by the in-band length or the size array, moves the cursor, and displays the rendered text behind what was there. |
| Decoder.ScalarShown | src/static_log_backend.cc:254-339 | Anywhere in a format: signed for `d`, `i`, unsigned for `u`, `o`, `x`, `X`, with 1, 2, 4 or 8 bytes; floating for the eight floating conversions with 4 or 8 bytes; a character for `c` with one; nothing for everything else. |
| Decoder.StringShown | src/static_log_backend.cc:454-458 | Anywhere in a format a string parameter is shown as the text whose length stands in four bytes in front of it. |
| Decoder.CharacterShown | src/static_log_backend.cc:418-431 | Other characters stand for themselves, and `%%` for one percent sign. |
| Decoder.ProcessFmt | src/static_log_backend.cc:404-484 | Refines a recursive renderer: a line that fits strictly is in the buffer, in place; whenever the method ends normally its result is the start plus the length of the line, and at most one character of it is wrong; it ends normally, fails, breaks or spins exactly when `FateOf` says so. |
| Decoder.RoomyEnds | src/static_log_backend.cc:413-483 | A line that leaves one place free in the buffer always ends normally. |
| Decoder.NeverSpins | src/static_log_backend.cc:212-219 | Behind the prefix of a line, with a `%c` that prints at least one character, no retry goes on for ever. |
| RoundTrip.FetchStored | src/static_log_backend.cc:454-466 | The decoder fetches the bytes the encoder stored for argument `k` and arrives where it stored argument `k + 1`. |
| RoundTrip.DecodeEncode | src/static_log_backend.cc:453-467 | For formats without stars, every specification is rendered on its own argument, in order, and the cursor ends at the end of the entry. |
| RoundTrip.DeferredDecoding | src/static_log.h:116-124 | Any number of queued entries of one call site decode to their own arguments, with the shared size array as any later call left it. |
| RoundTrip.NeverOutOfParams | src/static_log_backend.cc:471-477 | The failure branch is dead for every format the analyser accepts. |
| RoundTrip.WalkCursor | src/static_log_backend.cc:453-471 | The decoder takes one parameter per specification, stars or not. |
| RoundTrip.EndsWithEntry | src/static_log_backend.cc:453-471 | For every grammatical format with matching arguments, decoding what was encoded gives the expected line and ends at the end of the entry if and only if the format has no star and its specifications fit the decoder's copy. |
| RoundTrip.AlignedWithoutAddresses | src/static_log_internal.h:531-532 | The decoder looks for every argument where the encoder put it if and only if no `char*` is passed to a conversion that is not a string. |
| RoundTrip.FirstCallAligned | src/static_log.h:116-124 | With the size array as the call itself left it, starting from zeros, that is so if and only if the call passes no `char*` to such a conversion. |
| RoundTrip.LineEnds | src/static_log_backend.cc:453-471 | A walk that gets through a format ends at the end of the entry exactly if the format has no star. |
| RoundTrip.LineMeansShort | src/static_log_backend.cc:440-450 | No walk gets past a specification of 100 or more characters. |
| FailingInputs.GrowthThenLiteral | src/static_log_backend.cc:362-376 | `%s` always ends normally; `%s!` does so exactly if the text leaves room for the last character, and otherwise writes through a position in the old buffer. |
| FailingInputs.StarWidthMisreads | src/static_log_backend.cc:453-467 | `%*d` has no line at all: the specification takes the width, and its value is missing. |
| FailingInputs.StarPrecisionLosesText | src/static_log_backend.cc:453-467 | `%.*s` takes the precision for the string: an empty line, with the string left unread. |
| FailingInputs.StaticPrecisionCutsNothing | src/static_log_internal.h:534-541 | `%.3s` stores all of a text of six bytes. |
| FailingInputs.AddressShiftsNext | src/static_log_internal.h:531-532 | After a `char*` under `%p` an integer is read from the stored address. |
| FailingInputs.WideIntegerOverruns | src/static_log_backend.cc:292-297 | `%2000000d` behind a prefix, in a buffer with no more room than the printed text, has a line, but printing it runs over the end of the buffer. |
| FailingInputs.SharedSizeRunsOver | src/static_log.h:116-124 | One `%s` stored with the size of another thread's longer text reads behind its text and fills more than it has reserved. |
| LogCall.EntryWellFormed | src/static_log_internal.h:96-113 | Where the fields of an entry lie: timestamp, its own length, address of the static data, address of the size array, and from byte 32 on the arguments. |
| LogCall.FillEntry | src/static_log.h:122-126 | The four writes of a statement fill exactly the reserved bytes with one complete entry. |
| LogCall.StaticLog | src/static_log.h:116-128 | One statement publishes one complete record behind all pending ones exactly if there is room, else nothing visible changes; no string is ever too long. |
| LogCall.FormatEntry | src/static_log_backend.cc:492-503 | A delivered record, whatever its timestamp by now, is formatted with the static data and the size array at the addresses in its own bytes, and gives the line of its own call site and arguments, never through the failure branch. |
| TimePrefix.ConvertInt2Str | src/static_log_backend.cc:92-103 | Two places, padded with a zero. |
| TimePrefix.PutNano | src/static_log_backend.cc:131-140 | Nine places, the digits to the right and zeros in front of them. |
| TimePrefix.GenerateTimePrefix | src/static_log_backend.cc:107-145 | Writes the 31 characters of the prefix and touches nothing behind them. |
| TimePrefix.PrefixReadsBack | src/static_log_backend.cc:106-145 | Every field can be read back from its place, and the brackets and separators are at theirs. |
| TimePrefix.PrefixOrder | src/static_log_backend.cc:106-145 | The lexicographic order of prefixes is the order of the times they show, and different times have different prefixes. |

## Left out

- Backend.StaticLogBackend: the registry holds the buffers as values, not as references to `StagingBuffer` objects, so aliasing between a thread's own reference and the registry is not captured there; `StagingView` ties the class to those values, and `PollProtocol` has the concurrent threads.
- Backend.StaticLogBackend.IoPoll: models the loop at shutdown, with the stop flag set and every thread gone; the endless loop before that is `PollProtocol`, whose steps are those of the same loop.
- Backend.StaticLogBackend.ProcessLogBuffer: writing a line is an event that records the entry; the code adds the prefix length once more to the absolute position that `process_fmt` returns, and the exact bytes of the written line are not modelled.
- StagingBuffers.StagingBuffer.ReserveSpaceInternal: the class has the non-blocking mode only, because waiting needs the other thread; the blocking loop is in `StagingProtocol` and `StagingProgress`.
- StagingBuffers.StagingBuffer.FinishReservation: the caller has filled in a complete entry whose size field is its length, as `LogCall.FillEntry` does; a queue of other bytes has no records to speak of.
- Decoder.ProcessFmt: what the buffer holds is stated for runs that end normally; after undefined behaviour there is nothing to say about it.
- Decoder.DecodeSpec: a read beyond the entry's own bytes counts as undefined, although it may still lie inside the queue's storage; so does a specification of 100 or more characters, which is copied without a terminating NUL.
- LogBuffers.LogBuffer.DecodeNonString: an encoding error of `snprintf`, a negative result, is not modelled.
- TimePrefix.GenerateTimePrefix: years outside four digits are excluded, because `localtime` yields none for a 64-bit count of nanoseconds.
- The `BENCHMARK_DISCARD_ENTRIES_AT_STAGINGBUFFER` block, which discards data on purpose.
- Weak memory ordering and torn accesses.
- Wide strings: the size and store overloads treat them differently, so they have no coherent contract.
- Failing allocations, files, `write`, thread creation and joining, CPU affinity and the timing of condition variables.
- `generateCallInfoPrefix`, clamping of log levels, the nibble count, counters, benchmarks, the demo, and the older copy of the decoder in the unit tests: they would only add easy members.
- Liveness of the poller under a scheduler: `PollProgress` says what it can still write, not that it is ever scheduled.
