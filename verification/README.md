# Verification of the AT command engine

This project models a small AT command library for modems, written in C, in Dafny and proves what
the library is for. Three parts of it are modelled.

**The engine** (`src/at.c`) takes bytes from an interrupt through a lock-free ring, assembles lines,
and executes queued commands one at a time: it writes the command, skips its echo, answers a prompt
with the body, collects response lines, hands unsolicited lines to handlers, recognises the final
result, times out, and reports each command through a callback that may queue further commands.

**The SMS codec** (`src/at_gsm.c`) packs text into GSM 7-bit septets, encodes addresses as
semi-octets, assembles an SMS-SUBMIT, prints it in hexadecimal and queues it; long texts are cut
into parts.

**The formatting layer** (`include/at_fmt.h`) appends text and numbers to a bounded buffer and
parses numbers with saturation.

## How the model is laid out

| file | content |
|---|---|
| `Common.dfy`, `Arithmetic.dfy` | options, C strings, bounded prefixes; facts about quotients and remainders |
| `Fmt.dfy` | class `Builder` over the caller's buffer, the two parsers, printing as a function |
| `RxRing.dfy` | class `Ring`; the same ring one memory access at a time with producer and consumer interleaved |
| `LineFsm.dfy` | the line assembler, and an independent splitter of the byte stream |
| `UrcTable.dfy` | the handler table as slots, and as a finite map |
| `EngineTypes.dfy`, `EngineSpec.dfy` | the engine as a state machine on values, with a log of events |
| `EngineRuns.dfy` | runs of whole steps: API calls, interrupts and single loop iterations; an observer that checks the log |
| `EngineInterrupts.dfy` | the same engine one access to shared memory at a time, with the interrupts between any two accesses |
| `EngineTheorems.dfy` | what holds over every such execution |
| `EngineLiveness.dfy` | a bound on the work left |
| `EngineSession.dfy` | one command and the modem's answer to it, from bytes to callback |
| `Engine.dfy` | class `Engine` with the fixed arrays of the source; each method is proved to do what its function in `EngineSpec` does |
| `Packing.dfy`, `Gsm7.dfy` | base 128 against base 256, and the codec loops |
| `Sms.dfy` | addresses, hexadecimal, SMS-SUBMIT and an independent decoder |
| `SmsSend.dfy` | filling the PDU buffer, queueing one message, cutting a long text into parts |

The world outside the engine is a parameter, `World`: what each successive callback does (calls of
`at_send`, `at_register_urc` and `at_deregister_urc`), and whether each successive platform write
succeeds. The theorems hold for every world.

The observer in `EngineRuns` is the centre of the engine proofs. It sees only the log, knows nothing
of the engine's fields, and accepts an event only when the protocol allows it: a command starts only
at the head of the pending ones, exactly its texts are written in order, only the first line that
begins with the command is its echo, a final result, a failed write and a call of at_abort or at_reset
must be reported as such, a timeout only when its countdown has run out, and so on. `Inv` says that
the observer accepts the log and that what it knows is what the engine's fields hold.

The interrupts share the ring, the state and the timer with the task. `EngineInterrupts` therefore
cuts every engine function at its accesses to these and at its platform writes and engine calls from
callbacks, and lets ticks and arriving bytes fall in between: between setting the timer and entering
SENDING, between the two writes, between leaving the callback and entering IDLE, and so on. `Always`
says for each such point what the observer knows. Undisturbed, the accesses add up to the steps of
`EngineSpec`, which the class `Engine` implements. The ring itself is cut further in `RxRing`.

## Where the code differs from what is said about it

The model follows the code; these lemmas show the difference.

- A prompt `"> "` is not handed on before an LF (`LineFsm.PromptNeedsLf`), except as `>` CR space
  (`LineFsm.RunPrompt`); `ARCHITECTURE.md:118` says only `"> "`.
- The body is sent again, and the timer armed again, for every further prompt line. So the queue is
  sure to drain exactly when no command in it asks for a prompt, or the prompt timeout is zero (`EngineLiveness.QueueDrainsExactly`;
  one call of at_send leads to such a command, `EngineLiveness.PromptIsReachable`).
- Ticks while a command is being written do not count towards its timeout; the countdown begins when
  the state becomes WAITING (`EngineTheorems.TimerIsExact`).
- `AT_ERR_OVERFLOW`, documented at `include/at.h:83`, is stored in the response but never reaches a
  callback (`EngineTheorems.OverflowNeverReported`).
- The full test of the ring is right exactly for sizes below 65536 (`RxRing.FullTestExact`); the
  assertion at `include/at_config.h:127` asks only for a power of two.
- The two number parsers lose the few values just below their limits (`Fmt.UintRoundTrip`,
  `Fmt.IntRoundTrip`).
- A number with `+`, `#`, `,` or `;` after its first character passes validation but does not
  survive encoding (`Sms.AddressRoundTrip`, `Sms.FilledRoundTrip`; what it turns into:
  `Sms.OtherCharacters`).
- `include/at_config.h:28-30` says that command buffers of 256 bytes truncate long messages; the body
  has twice that room, and 256 bytes hold every message (`SmsSend.LongestPduFits`, and exactly when a
  message is truncated: `SmsSend.EntryKeepsPdu`).
- at_gsm7_decode checks that its second octet is inside the buffer, but not its first: it needs the
  octet in which the last character begins (`Gsm7.Decode`), and reads past a shorter buffer.
- The part count is an 8-bit number, so text beyond 255 parts loses characters or is refused
  (`SmsSend.PartsCoverText`).
- The header of a part stands before its length octet, unlike in 3GPP TS 23.040 section 9.2.3.24; the
  decoder `SmsSend.ParsePart` reads the layout that the code writes.
- `README.md:121-127` and `ARCHITECTURE.md:224-231` give other defaults than `include/at_config.h`;
  all sizes and times are parameters here.

## Model

| member | source | states |
|---|---|---|
| `RxRing.InterleavingRefinesQueue` | src/at.c:33-59 | every interleaving of the memory accesses of push and pop, however long, is a run of a bounded FIFO on wrapping 16-bit indices; what was popped followed by what is pending is what was accepted |
| `RxRing.NothingLostOrOverwritten` | src/at.c:42-59 | after every interleaving the byte about to be handed out is the oldest pending one, a byte is refused exactly when the ring is really full, and the producer's store leaves all pending bytes alone |
| `RxRing.StepKeepsInv` | src/at.c:42-59 | each single access keeps the wrapped indices, the stored bytes and both half-done operations consistent |
| `RxRing.StepIsAtomic` | src/at.c:42-59 | a single access either changes nothing visible or is exactly one operation of the atomic queue |
| `RxRing.FullTestExact` | src/at.c:40-44 | the unsigned difference of the indices detects a full ring for every tail exactly when the size is below 65536 |
| `RxRing.MaskIsSlot` | src/at.c:44-57 | for a power of two, bitwise AND with the size less one is the index modulo the size |
| `RxRing.SlotOfWrapped` | src/at.c:44-57 | for a power of two, a wrapped index and the unwrapped count find the same slot |
| `RxRing.Ring.constructor` | src/at.c:175-179 | an empty ring |
| `RxRing.Ring.Push` | src/at.c:42-50 | appends the byte, or refuses it exactly when the ring is full |
| `RxRing.Ring.Pop` | src/at.c:52-59 | takes the oldest byte, or finds the ring empty |
| `RxRing.Ring.Clear` | src/at.c:202 | the ring is empty afterwards |
| `LineFsm.RunIsSplit` | src/at.c:264-314 | the three-state assembler computes the lines of an independent splitter of the byte stream, truncated, and holds exactly the unfinished line |
| `LineFsm.Resynchronises` | src/at.c:264-314 | once a line has ended, whatever came before, over-long lines included, has no influence on later lines |
| `LineFsm.StepConsistent` | src/at.c:264-314 | the collected length is zero exactly in the start state and always leaves room for the terminator |
| `LineFsm.RunConcat` | src/at.c:264-314 | feeding in pieces gives the same lines as feeding at once |
| `LineFsm.RunPrompt` | src/at.c:299-305 | `>` CR space is handed on as the prompt without a line ending |
| `LineFsm.PromptNeedsLf` | src/at.c:273-298 | `>` space followed by anything is handed on if and only if an LF follows |
| `UrcTable.RegisterRefines` | src/at.c:387-412 | registering updates the finite map from truncated prefixes to handlers, keeps prefixes distinct, and is refused exactly for a new prefix when no slot is free |
| `UrcTable.DeregisterRefines` | src/at.c:414-425 | deregistering removes the prefix from that map, or fails because it is not there |
| `UrcTable.MatchByMap` | src/at.c:640-653 | a line that exactly one active prefix starts reaches the handler the map gives for it, wherever its slot is |
| `UrcTable.NoMatchByMap` | src/at.c:640-653 | a line that no active prefix starts reaches no handler |
| `EngineInterrupts.NextAlways` | src/at.c:229-659 | every access of the task to what it shares with the interrupts, every platform write, every engine call from a callback, and every tick or byte between any two of them keep the observer's protocol and the agreement of the engine's fields with it |
| `EngineInterrupts.TickAlways` | src/at.c:244-254 | a tick may strike wherever the task stands |
| `EngineInterrupts.Execute` | src/at.c:175-659 | so this holds at every point of every execution from power-up |
| `EngineInterrupts.ReachableAlways` | src/at.c:175-659 | the same for whatever is reachable, over which the theorems are stated |
| `EngineInterrupts.UndisturbedIsStep` | src/at.c:260-328 | without interrupts in between, the accesses of an engine function add up to the one step that the class implements |
| `EngineInterrupts.RunsAreExecutions` | src/at.c:260-328 | every run of whole steps is such an execution |
| `EngineRuns.StepKeepsInv` | src/at.c:175-425 | every API call or iteration of the processing loop, taken as a whole, keeps the invariant of the points between them: the log follows the protocol, and the engine's queue, pool, timer, echo flag and state are what the observer knows |
| `EngineRuns.DispatchKeepsInv` | src/at.c:498-559 | so does every use of a line, callbacks that send or change the handler table included |
| `EngineRuns.StartKeepsInv` | src/at.c:456-492 | starting a command writes exactly it and CR, and a failed write is reported at once |
| `EngineRuns.FinalizeTracked` | src/at.c:607-634 | finishing reports the head of the queue with what was collected and as its stage demands, and leaves what its callback sent behind the rest |
| `EngineRuns.ResetKeepsInv` | src/at.c:181-208 | at_reset keeps the invariant |
| `EngineRuns.Run` | src/at.c:175-425 | every state that a run of whole steps from power-up can reach satisfies the invariant |
| `EngineRuns.Drain` | src/at.c:262-314 | the draining loop ends with an empty ring and keeps the invariant |
| `EngineRuns.FeedFills` | src/at.c:229-238 | of the bytes fed exactly those that find room join the ring, in order |
| `EngineRuns.ProcessIsSteps` | src/at.c:260-328 | a whole at_process is one particular sequence of steps, so what holds of all runs holds of runs of whole calls |
| `EngineSpec.DoActsEffect` | src/at.c:334-425 | whatever calls a callback makes, they append entries to the queue and rewrite handler slots, nothing else |
| `EngineSpec.ReportEffect` | src/at.c:621-629 | the reported entry leaves the front of the queue although its callback sent more while it was still there; nothing sent is lost and the depth is respected |
| `EngineSpec.ReportShrinks` | src/at.c:188-200 | each report lowers the number of queued and still to be sent commands, so the loop of at_reset ends |
| `EngineSpec.ReportRunsCallback` | src/at.c:607-634 | a report makes exactly the calls that the world has in store for the callback, if and only if the entry has one, while the entry is still queued |
| `EngineSpec.FinalizeFinishes` | src/at.c:607-634 | and finishing a command changes nothing else but status, state, timer and echo |
| `EngineSpec.CallsInOrder` | src/at.c:621-624 | the calls of a callback take effect one after the other |
| `EngineSpec.SendStores` | src/at.c:334-357 | at_send refuses a missing or empty command, is busy with a full queue, and otherwise stores callback, prompt mode and timeout of the descriptor (the default for zero), command and body as far as they fit |
| `EngineSpec.TransmitWrites` | src/at.c:474-492 | both strings are written and the engine waits; or a write fails, nothing is written after it, and the command is reported with an I/O error |
| `EngineTheorems.CommandsCompleteInOrder` | src/at.c:181-208 | at every point of every execution the accepted commands are the completed ones followed by the queue, less its head while the callback of that runs: none is lost, repeated or overtaken, whoever sent it |
| `EngineTheorems.Conservation` | src/at.c:334-357 | the same for every log that the observer accepts |
| `EngineTheorems.ResponsesAreIsolated` | src/at.c:456-634 | each response belongs to one start of its command: its lines are the first ones kept in between, a verdict was received in between, a timeout means that the countdown ran out, for commands with a prompt too, ABORTED is reported exactly when at_abort or at_reset was called and an I/O error exactly when a write failed, the command and its body were written exactly as often as asked for, and at most one line was skipped as echo; or nothing is being executed and at_reset reports a command that was never started |
| `EngineTheorems.TransmissionsAreExact` | src/at.c:476-536 | while a command waits for lines exactly it, CR and, for each prompt line, its body and Ctrl-Z have been written since it started |
| `EngineTheorems.LineIsUsedOnce` | src/at.c:498-559 | every line has exactly one use, that use only when no earlier one applies (prompts and final results being told by their text), and only its effect takes place: after a prompt line nothing or exactly the restart of the timer and the two writes, a final result reports the command and makes its callback's calls, the handler of the first matching prefix makes its calls, a kept line joins the pool |
| `EngineTheorems.StartTransmits` | src/at.c:456-492 | starting clears the response, arms echo and timer and writes command and CR, with these consequences |
| `EngineTheorems.AbortReports` | src/at.c:376-381 | at_abort reports the command being executed as aborted, with the lines so far, and otherwise changes nothing |
| `EngineTheorems.AbortIsCarriedOut` | src/at.c:376-381 | in every execution, whatever interrupts strike in between |
| `EngineTheorems.ExpiryReports` | src/at.c:316-322 | a command whose timer is zero is reported as timed out, prompt or not, and no other |
| `EngineTheorems.TickIsRecorded` | src/at.c:244-254 | a tick is recorded with its full length and changes nothing but the timer |
| `EngineTheorems.OverflowNeverReported` | src/at.c:554-610 | no completion carries AT_ERR_OVERFLOW |
| `EngineTheorems.TimerIsExact` | src/at.c:244-254 | wherever interrupts strike, from the moment the state is WAITING the timer is the timeout less the time ticked since then, and after a prompt the prompt timeout less the time ticked since that was set, not below zero |
| `EngineTheorems.TimeoutMeansElapsed` | src/at.c:316-322 | AT_ERR_TIMEOUT is reported only when the ticks since that moment add up to that limit |
| `EngineTheorems.TaskKeepsTimer` | src/at.c:473-634 | no access of the task writes back a timer value: it leaves the timer, sets it for a new command or the prompt, or clears it in state IDLE, so no tick is overwritten |
| `EngineTheorems.DrainKeepsTimer` | src/at.c:262-322 | draining the ring leaves the timer of a command without prompt alone, or a final result line received while draining has completed it |
| `EngineTheorems.TimeoutIsPrompt` | src/at.c:316-327 | the next at_process reports an expired command as timed out unless a final result line completed it while draining; a command whose time is not up is not timed out |
| `EngineTheorems.LinesDependOnBytesOnly` | src/at.c:229-314 | at every point of every execution the dispatched lines are those of the stored bytes, however these were grouped into calls and interleaved with ticks, sends and callbacks |
| `EngineTheorems.ResetAbortsEverything` | src/at.c:181-208 | at_reset leaves queue, ring, pool and assembler empty, completes everything accepted before or during it in order, and everything it completes with ABORTED |
| `EngineTheorems.ResetReports` | src/at.c:181-208 | at_reset reports the command being executed first, with its lines; handlers stay registered |
| `EngineTheorems.AbortAllReports` | src/at.c:187-200 | then it reports one queued command after the other, each callback making its calls |
| `EngineLiveness.RoundWork` | src/at.c:244-328 | a tick and an at_process that find a command in the queue lower the measure of work, whatever arrives and whichever writes fail |
| `EngineLiveness.BusyRoundsBounded` | src/at.c:244-328 | the rounds that find work are bounded by the timeouts of the queued commands and of those callbacks will send, with one round each to start |
| `EngineLiveness.QueueDrains` | src/at.c:244-328 | when callbacks send nothing more and no prompt can prolong a command, every command has completed after one round more than the sum of the timeouts |
| `EngineLiveness.QueueDrainsExactly` | src/at.c:244-537 | between commands, with succeeding writes and callbacks that send nothing, there is a number of rounds after which the queue is empty whatever arrives, if and only if no command in the queue asks for a prompt or the prompt timeout is zero |
| `EngineLiveness.PromptCanStarve` | src/at.c:514-537 | while the modem repeats its prompt the first command that asks for one stays, wherever it stands in the queue |
| `EngineLiveness.PromptIsReachable` | src/at.c:334-357 | such a state is one call of at_send away from power-up |
| `EngineSession.CommandGetsItsAnswer` | src/at.c:260-634 | echo, framed lines and final result, fed and processed in any grouping without overflow and in time, complete the command with what the final result says and the first lines, echo removed, when the last byte has been processed and not before; response lines are those whose text is no final result and no prompt |
| `EngineSession.StartBegins` | src/at.c:456-492 | an idle engine whose writes succeed comes into the state that theorem starts from, with the whole timeout ahead |
| `EngineSession.SentIsStarted` | src/at.c:324-492 | at_send and then at_process on an idle engine write the command of the descriptor and wait with the timeout of the descriptor on the timer; the entry keeps callback and prompt mode |
| `EngineSession.RunWirePrefix` | src/at.c:260-314 | after any prefix of the answer's bytes the assembler has handed on exactly the frames that are complete |
| `EngineSession.PopStep` | src/at.c:264-314 | one byte of the answer brings the exchange one byte further, or delivers the answer |
| `Engine.Engine.NothingLost` | src/at.c:122-150 | at every API boundary the accepted commands are the completed ones followed by the queue, qHead is qTail plus qCount modulo the depth, and the state is IDLE or WAITING, the latter only with a command |
| `Engine.Engine.constructor` | src/at.c:175-179 | at_init: the initial state, from which all runs start |
| `Engine.Engine.Send` | src/at.c:334-357 | refused without a command or with a full queue, otherwise the entry that keeps what the descriptor asks for joins the circular queue at the end |
| `Engine.Engine.RegisterUrc` | src/at.c:387-412 | the table becomes the registered one, with the result code of the three cases |
| `Engine.Engine.DeregisterUrc` | src/at.c:414-425 | the table loses the prefix, or the call fails |
| `Engine.Engine.RunCallback` | src/at.c:621-624 | a callback's calls take effect one after the other while its entry is still queued |
| `Engine.Engine.EngineFinalize` | src/at.c:607-634 | reports with the pooled lines, dequeues after the callback, goes idle |
| `Engine.Engine.EngineStartNext` | src/at.c:456-492 | clears the response, arms echo and timer, writes command and CR, waits or fails with an I/O error |
| `EngineSpec.ErrorCodeArrives` | src/at.c:586-599 | the number a modem prints in a +CME or +CMS error line, after blanks and before any remark, is the reported code exactly when it is not one of the few the parser saturates |
| `EngineSpec.FinalCodeExactly` | src/at.c:565-604 | a line is a final result exactly when it is one of the six words or begins with one of the two error prefixes, and with exactly the status and code it says |
| `EngineSpec.FinalWordsAreWhole` | src/at.c:571-585 | each of the six final words is a final result only as the whole line, and success only the first |
| `Engine.Engine.RespPoolAppend` | src/at.c:74-82 | the line is added to the pool, or refused exactly when the pool is full |
| `Engine.Engine.UrcDispatch` | src/at.c:640-653 | the handler of the first active slot whose prefix starts the line runs, and none when no prefix does |
| `Engine.Engine.SendPromptedBody` | src/at.c:514-537 | the body is written with Ctrl-Z if the command has one for the prompt |
| `Engine.Engine.EngineDispatchLine` | src/at.c:498-559 | the line is used in the one way its classification says |
| `Engine.Engine.Feed` | src/at.c:229-238 | each byte is stored or dropped, in order: the ring holds as much as it has room for |
| `Engine.Engine.Tick` | src/at.c:244-254 | the timer counts down to zero while a command waits, and not otherwise |
| `Engine.Engine.DrainRing` | src/at.c:262-314 | pops and assembles until the ring is empty |
| `Engine.Engine.ExpireOrGoOn` | src/at.c:316-322 | an expired command is finished with a timeout |
| `Engine.Engine.Process` | src/at.c:260-328 | does on the arrays and indices what the specified at_process does on values |
| `Engine.Engine.Abort` | src/at.c:376-381 | the command being executed is reported with ABORTED and the lines collected; without one nothing changes |
| `Engine.Engine.Reset` | src/at.c:181-208 | does what the specified at_reset does, and ends |
| `Engine.QueuePush` | src/at.c:339-354 | storing at qHead appends to the circular queue and disturbs no entry |
| `Engine.QueueDrop` | src/at.c:626-629 | clearing the slot at qTail removes the oldest entry only |
| `Fmt.Builder.AbChar` | include/at_fmt.h:49-54 | the text grows by the character if it and the terminator fit |
| `Fmt.Builder.AbStr` | include/at_fmt.h:59-66 | as much of the string as fits is added, and the result says whether that is all |
| `Fmt.Builder.AbQStr` | include/at_fmt.h:71-76 | the same for the string between quotes |
| `Fmt.Builder.AbU32` | include/at_fmt.h:82-99 | the same for the decimal notation, through ten scratch digits that suffice |
| `Fmt.Builder.AbI32` | include/at_fmt.h:104-112 | the same with sign, INT32_MIN included |
| `Fmt.Builder.Append` | include/at_fmt.h:123-138 | over any sequence of appends the buffer holds the printed text as far as it fits, and the flag says whether that is all |
| `Fmt.Builder.Done` | include/at_fmt.h:140-146 | the terminator is written in bounds, and after success the text is everything printed |
| `Fmt.Build` | include/at_fmt.h:123-146 | a whole builder sequence succeeds exactly when the concatenated text is shorter than the buffer |
| `Fmt.UnsignedIsNumber` | include/at_fmt.h:82-99 | what is printed are digits that denote the number |
| `Fmt.DecimalNotation` | include/at_fmt.h:82-99 | a digit is printed as itself, and ten times a number and a digit as the number and the digit |
| `Fmt.ParseUint` | include/at_fmt.h:180-191 | a digit string of value N gives N up to 4294967289 and 4294967295 beyond |
| `Fmt.ParseInt` | include/at_fmt.h:157-174 | blanks and one sign are skipped and the digits after them consumed, a minus negates, the magnitude saturates to 2147483647 from 2147483640 on, without overflow |
| `Fmt.ParsedIntInText` | include/at_fmt.h:157-174 | a printed number is read the same in the middle of a text |
| `Fmt.SignsAreRead` | include/at_fmt.h:157-174 | after blanks a minus negates the number and a plus does not |
| `Fmt.UintRoundTrip` | include/at_fmt.h:82-191 | printing then parsing is the identity exactly outside 4294967290 to 4294967294 |
| `Fmt.IntRoundTrip` | include/at_fmt.h:104-174 | likewise for signed numbers, where INT32_MIN is lost as well |
| `Packing.PackPreservesValue` | src/at_gsm.c:873-889 | packing is base conversion: the octets in base 256 and the septets in base 128, both least significant first, denote the same number |
| `Packing.UnpackPack` | src/at_gsm.c:858-947 | unpacking the packed septets gives them back |
| `Packing.PackUnpack` | src/at_gsm.c:858-947 | packing the unpacked octets gives them back exactly when the pad bits are zero |
| `Gsm7.PackStep` | src/at_gsm.c:880-888 | one turn of the packing loop adds one digit in base 128, without the two shifted halves disturbing each other |
| `Gsm7.Encode` | src/at_gsm.c:858-894 | the four result codes, and on success ceil(7n/8) octets of the same value as the septets, nothing written beyond them |
| `Gsm7.ReadSeptetIsDigit` | src/at_gsm.c:933-943 | the shifts and masks of the decoder read the i-th digit in base 128 |
| `Gsm7.Decode` | src/at_gsm.c:924-947 | the characters of the septets and a terminator, or nothing at all when they do not fit; a last octet that only some bits of the last character need may be missing and counts as zero |
| `Gsm7.CharRoundTrip` | src/at_gsm.c:833-922 | the two tables invert each other on every character that can be encoded |
| `Gsm7.AlphabetIsStandard` | src/at_gsm.c:833-922 | a character is encoded as its position in the table of 3GPP TS 23.038 section 6.2.1 and only ASCII characters of that table are; a position is decoded to its character there, or to a question mark |
| `Gsm7.EncodeAccepts` | src/at_gsm.c:864-876 | which texts are encoded, and which result code refuses the others |
| `Gsm7.DecodesByTable` | src/at_gsm.c:896-922 | decoded characters are those of the standard's table, as far as supported |
| `Gsm7.DecodeEncode` | src/at_gsm.c:858-947 | an encoded text is read back by the decoder, and by whoever reads it through the standard's table |
| `Gsm7.EncodeDecode` | src/at_gsm.c:858-947 | encoding a decoded buffer restores it exactly when its septets are ones the encoder produces and its pad bits are zero |
| `Sms.ValidatePhoneNumber` | src/at_gsm.c:29-39 | accepts exactly the non-empty strings of dialling characters |
| `Sms.NumberCharacters` | src/at_gsm.c:29-39 | these are the ten digits and + * # , ; |
| `Sms.OrdinaryNumberIsValid` | src/at_gsm.c:29-39 | every decimal number is accepted, with or without a plus in front |
| `Sms.EncodeAddress` | src/at_gsm.c:965-983 | type octet and semi-octets of at most twenty digits, in at most eleven octets |
| `Sms.AddressRoundTrip` | src/at_gsm.c:965-983 | decoding the semi-octets (3GPP TS 23.040 section 9.1.2.3) gives the digits back exactly when they are decimal digits or stars |
| `Sms.FilledRoundTrip` | src/at_gsm.c:965-983 | the same when the number of digits is found from the filler |
| `Sms.OtherCharacters` | src/at_gsm.c:965-983 | the other dialling characters come out as # 3 and a |
| `Sms.HexEncode` | src/at_gsm.c:986-996 | as many octets as fit are printed, and terminated in bounds |
| `Sms.HexRoundTrip` | src/at_gsm.c:986-996 | reading the hexadecimal back gives the octets |
| `Sms.SubmitRoundTrip` | src/at_gsm.c:998-1066 | an independent decoder (3GPP TS 23.040 section 9.2.2.2, text by the table of 3GPP TS 23.038, type of address by section 9.1.2.5) recovers the text always, international E.164 addresses, and service centre and destination exactly when they are faithfully encodable |
| `SmsSend.BuildSubmit` | src/at_gsm.c:1018-1066 | the PDU buffer is filled with SMSC field and TPDU within 200 octets, or the arguments are refused |
| `SmsSend.CmgsPdu` | src/at_gsm.c:998-1097 | refused arguments change nothing; otherwise the message is queued with the result of at_send |
| `SmsSend.BuildableExactly` | src/at_gsm.c:998-1066 | the arguments that are refused: no number or text, a character that is not dialled, more than twenty digits, more than 160 characters, a character that is not supported |
| `SmsSend.MessageOnTheWire` | src/at_gsm.c:1068-1097 | the queued body un-hexes to a message that decodes to the international service centre and destination and the text, the number in AT+CMGS counts the octets after the SMSC field, and callback, prompt and timeout are those asked for |
| `SmsSend.CommandCounts` | src/at_gsm.c:1068-1086 | for any octets after an SMSC field the printed number is their count |
| `SmsSend.PrintCommand` | src/at_gsm.c:1082-1086 | the command always fits its 24 bytes |
| `SmsSend.EntryKeepsPdu` | src/at.c:342-351 | the queue stores a message whole if and only if its octets, and its command, are fewer than the bytes of a command buffer |
| `SmsSend.LongestPduFits` | src/at.c:342-351 | buffers of 256 bytes hold every message and every part |
| `SmsSend.PartCount` | src/at_gsm.c:1107-1120 | one part up to 160 characters, none outside the alphabet, else the number of parts modulo 256 |
| `SmsSend.PartCountMeans` | src/at_gsm.c:1107-1120 | the least number of parts of 153 characters that hold the text, of which eight bits are kept |
| `SmsSend.PartsCoverText` | src/at_gsm.c:1107-1120 | the parts are non-empty, and together they are the text exactly when it has at most 255 times 153 characters |
| `SmsSend.BuildPart` | src/at_gsm.c:1137-1207 | a part's buffer is filled with header, length and packed text within 220 octets, or the segment or the number is refused |
| `SmsSend.SendConcatPart` | src/at_gsm.c:1127-1227 | a part of at most 153 characters is queued; a number of more than twenty digits or a segment outside the alphabet is refused |
| `SmsSend.PartRoundTrip` | src/at_gsm.c:1137-1207 | each part reads back as service centre, destination, PID and DCS, reference, total, number and text of the part; addresses are international |
| `SmsSend.ReceivedDigits` | src/at_gsm.c:965-983 | of a longer service centre number the first twenty digits are received |
| `SmsSend.ReceivedFaithfully` | src/at_gsm.c:965-983 | so it is received as given exactly when it has at most twenty digits or stars |
| `SmsSend.SendLong` | src/at_gsm.c:1229-1261 | refused, sent as a single message, or all parts handed to at_send in order until one is refused |
| `SmsSend.LongTextArrives` | src/at_gsm.c:1239-1260 | a text of at most 255 parts is sent as parts numbered from 1 with one reference and one total to one international destination, whose decoded texts concatenate to it |
| `SmsSend.PartsFillQueue` | src/at_gsm.c:1247-1260 | for every number of at most twenty digits: OK exactly when there is room for all parts; otherwise BUSY, and exactly the first ones are queued |

## Left out

- EngineSession.CommandGetsItsAnswer: needs an answer in which no line could be mistaken for another (response lines that match a handler's prefix, look final or look like a prompt are used as such by the code), and no late answer of a command that timed out before.
- EngineLiveness.QueueDrainsExactly: for rings of at least 8 bytes, which hold two prompt lines; a smaller ring delays the prompt.
- Engine.Engine.Reset: runs with reception quiescent, because it writes the index that the interrupt owns.
- RxRing.InterleavingRefinesQueue: memory accesses are sequentially consistent, as on the single core that `ARCHITECTURE.md:91-94` assumes.
- SmsSend.PartRoundTrip: the part layout of the code, not the one of the standard.
- EngineInterrupts.NextAlways: a tick, a byte and a call of at_send are each one move, and so is the part of at_reset that runs in state IDLE, where ticks have no effect.
- EngineSession.RunWirePrefix: the session theorems are about whole steps, with interrupts between them.
- Callbacks that call at_abort, at_reset or at_process: the code finalizes before it dequeues, so these calls are not re-entrant.
- A callback that sends without end: at_reset would not return; the world of a run holds finitely many sends.
- A short write counts as a failed write; how many bytes went out is not modelled.
- The slots of the response pool are strings, bounded by the line length through the assembler, rather than rows of a two-dimensional array.
- Null output pointers of the codec and their result code.
- The command text of a message is the content of its buffer; the code passes the buffer without writing the terminator.
- The branches after a full command buffer in the PDU builders, which cannot be reached.
- at_deinit, at_send_raw, the state queries, the trace hook and logging.
- The one-line command wrappers of `src/at_gsm.c` (ATZ, +CFUN, +CREG and so on): each is one builder sequence and one at_send.
- The field parsers of `src/at_gsm.c` (+CSQ, +COPS, +CPIN, time stamps): shallow and finite.
- The platform hooks of `src/at_platform_defaults.c`, mutexes and the examples.
