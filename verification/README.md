# A verified model of AT Protocol's small stateful cores

This Dafny project models the parts of the `atproto` monorepo whose correctness is a statement about every input, every run or every interleaving, and proves those statements:

- `Car.dfy`, `Truncation.dfy`: CAR files. The framing writer, the varint reader, the flat cursor, and the chunk-queue reader, which is proved to refine the cursor; round trips; and what a file that was cut off reads as.
- `MessageChannel.dfy`, `ChannelRuns.dfy`, `ChannelEnds.dfy`: the WebSocket receive engine. In-place operations on a byte-counted queue, parked pulls, watermarks and first-wins terminals, proved against a state machine; then invariants over every run of that machine.
- `WebSocketStream.dfy`, `StreamOutcomes.dfy`: the reconnect loop. An automaton over hook traces, and the loop, proved to produce only traces of that language; and which failures are retried, reported or neither.
- `SweepLock.dfy`, `Disturbance.dfy`, `SoloCall.dfy`: mutual exclusion by link, directory scan and back-off, for any number of interleaved, crashing processes, and exactly when it fails; and one call alone, as the source writes it, shown to be a run of that machine.
- `Tid.dfy`, `TidGenerator.dfy`: the sortable base-32 codec, TIDs, and the generator that survives a clock running backwards.
- `Syntax.dfy`, `DidCore.dfy` over `Regex.dfy` and `Split.dfy`: the step-by-step validators against the regular expressions, and a hand-written look-ahead scanner against its ABNF (the DID syntax of section 3.1 of W3C DID Core).
- `Labels.dfy`, `SavedFeeds.dfy`, `SavedFeedsLaws.dfy`: preference rewriting with double-writes on write and a remap on read.
- `Coalesce.dfy`, `AsyncBuffer.dfy`, `EtcdMap.dfy`, `LexiconValues.dfy`: byte coalescing, wake-ups, last-writer-wins convergence, and the blob-preserving tree round trip.

Code that changes state in the source is a method or a class here, proved against a function of the old state; what the source promises is then proved about that function, over all runs. Regular expressions are a datatype with the usual language semantics, so that a validator and a regular expression can be compared on every string.

`dafny verify dfyconfig.toml` checks the whole project.

## Where the code says less than its documentation

Properties that are not true of the code as first stated are here with the exact condition under which they hold, or a counterexample:

- The sweep lock's comment relies on no generation ever being reclaimed. A generation is a second of wall-clock time, and within one second an ordinary acquire and release lets it be linked again. `Disturbance.RelinkingBreaksExclusion` is a run of three calls in which that ends with two live holders: a call unlinks the new marker for the old one, and the back-off's own unlink then fails with ENOENT, which the inner catch swallows. What matters is whether a link is disturbed (`SweepLock.Disturbs`): whether another live call is inspecting the vanished marker of the same generation, and has judged it stale or read a pid that is neither its own nor the linker's. Without disturbed links the lock is exclusive (`SweepLock.AtMostOneHolder`); every disturbed one can be gone on from to two live holders (`Disturbance.DisturbedLinkBreaks`); so the condition is exact (`Disturbance.LinkBreaksExactly`, `Disturbance.SafeExactlyIfUndisturbed`). The comment's assumption implies it.
- `setContentLabelPref` followed by `getPreferences` gives the value back for every key except `__proto__`, and except a key that is the text of an inherited object member whose name is itself in use as a label, since the remap's lookup table is an ordinary object (`Labels.SetThenGetExactly`, `Labels.SettingAShadowedLabelFails`).
- A write to one global label can change another that is neither the key nor its legacy twin: setting a legacy label changes the new one, and setting `toString` makes the text of that member appear as a label. `Labels.OthersReadTheSame` says exactly when a label reads as before; `Labels.SettingSetsTheTarget` gives the failing inputs, of which `Labels.ObjectInherits` names two.
- `TID.next(prev)` with `prev` ahead of the clock does not advance the clock, so a later `TID.next()` may be older than its answer (`TidGenerator.NewerThanPushedExactly`, `TidGenerator.PushedThenOlder`). Calls without a predecessor, and chains of calls, do increase, whatever other calls come between.
- `new TID` accepts any thirteen characters. As a predecessor of foreign ones, `TID.next` may never return, because a negative timestamp is never encoded to the end (`Tid.EncodeEndsExactly`, `TidGenerator.AnswerExactly`, `TidGenerator.ForeignPredecessorHangs`), or may answer a TID that is not newer (`TidGenerator.AnswerIsNewer`, `TidGenerator.ForeignPredecessorAnswersOlder`).
- A TID is rebuilt from its timestamp and clock identifier exactly when it does not begin with `2`, and a generated TID satisfies the syntax exactly below 2^54 microseconds.
- A CAR file that was cut off between two block frames reads as a complete one (`Truncation.ReadCutFile`); any other cut throws.
- A CAR block survives the round trip exactly when its CID is 36 bytes long, or shorter with no contents (`Car.BlocksRoundTripExactly`, `Car.LongCidIsCut`).
- With a high-water mark of zero, a paused channel is never resumed (`ChannelRuns.ZeroMarkNeverResumes`).
- `onClose` is documented to report 1006 for a stop while parked in backoff. The code reports how the last transport that was dialled closed; 1006 stands in only if that one was never constructed or there was none (`WebSocketStream.AbnormalStandsInExactly`, `WebSocketStream.StopInBackoff`).
- The comment over `ensureValidDid` says that a percent sign must be followed by two hex digits, and also that percent encoding is not validated here. The second is what holds: neither it nor its regular expression checks that, the DID scanner does (`DidCore.ValidatorsDiffer`, `DidCore.UnescapedPercentAccepted`). The scanner takes upper-case hex digits only.
- `assertDidMethod` and `assertDidMsid` let a negative `start` through, and the positions before the string pass every test.
- `setSavedFeeds` keeps version 1 of the saved feeds consistent exactly when its arguments are.
- `ipldToLex` then `lexToIpld` loses fields named `__proto__`, and nothing else (`LexiconValues.RoundTripExactly`, `LexiconValues.ProtoFieldIsLost`).
- `EtcdMap` converges exactly if, for each key, the events of its highest revision give one value (`EtcdMap.OrderDoesNotMatter`, `EtcdMap.CommuteExactly`).
- `removeSavedFeeds` never removes a feed whose id is empty, since the id it finds is the test (`SavedFeeds.RemoveIdsExactly`).

## Model

| member | source | states |
|---|---|---|
| Car.Ui8Reader.constructor | packages/repo/src/car.ts:213-217 | a fresh cursor has all the bytes before it and is not done |
| Car.Ui8Reader.Read | packages/repo/src/car.ts:219-226 | returns the next bytes, as many as there are up to the number asked for, and moves past exactly those; done from the read on that leaves nothing |
| Car.BufferedReader.constructor | packages/repo/src/car.ts:243-248 | what is left to read of a fresh reader is the concatenation of the chunks |
| Car.BufferedReader.BufferedByteLength | packages/repo/src/car.ts:251-257 | the number of bytes in the queue, summed chunk by chunk |
| Car.BufferedReader.Read | packages/repo/src/car.ts:264-300 | refines the flat cursor: for every way the bytes are cut, empty chunks included, it returns and leaves exactly what the cursor does on the concatenation, and being done means that no byte is left |
| Car.BufferedReader.Dequeue | packages/repo/src/car.ts:270-278 | the wanted number of queued bytes leave the front of the queue, as a view or as a copy |
| Car.BufferedReader.CopyChunks | packages/repo/src/car.ts:280-300 | the copy loop terminates and fills the whole result; the result and what stays queued are what was taken and queued before, in order |
| Car.BufferedReader.ReadUntilBuffered | packages/repo/src/car.ts:302-315 | moves chunks into the queue without losing or reordering a byte until enough are there; done exactly if the iterator ran out first |
| Car.BufferedReader.ConsumeChunk | packages/repo/src/car.ts:317-344 | the chunk taken and the new queue make up the old queue; either it is as long as wanted or the queue got shorter |
| Car.BufferedReader.Close | packages/repo/src/car.ts:346-355 | a closed reader is done and has nothing left |
| Car.BytesReader.IsDone | packages/repo/src/car.ts:207-211 | done, of either reader, implies that no byte is left |
| Car.BytesReader.Read | packages/repo/src/car.ts:207-211 | one contract for both readers: which of them it is makes no difference to what a read returns and leaves |
| Car.BytesReader.Close | packages/repo/src/car.ts:207-211 | closing empties the buffered reader and does nothing to the flat one |
| Car.ReadSeries | packages/repo/src/car.ts:213-344 | any series of non-overlapping reads of any sizes returns the same slices from either reader |
| Car.ReadVarint | packages/repo/src/car.ts:186-205 | reads exactly the bytes up to the first without a high bit, and their LEB128 value; null only at the end, an error for an unfinished group |
| Car.VarintRoundTrip | packages/repo/src/car.ts:19-24 | in front of any bytes, reading a written length gives it back and consumes exactly the bytes its prefix occupied |
| Car.LebRoundTrip | packages/repo/src/car.ts:186-205 | a written number is one complete group, of that value |
| Car.LebOf300 | packages/repo/src/car.ts:186-205 | the byte order of a length, on the usual example |
| Car.ReadBlock | packages/repo/src/car.ts:153-183 | one turn of the block generator and its verifying wrapper: end, the error thrown, or the block and what is left after its frame |
| Car.ReadCarBlocks | packages/repo/src/car.ts:148-184 | on either reader, the blocks yielded and the error thrown are those of parsing the remaining bytes; the loop ends |
| Car.ReadCarReader | packages/repo/src/car.ts:97-123 | roots, blocks or error are those of parsing the remaining bytes |
| Car.ReadCarStream | packages/repo/src/car.ts:87-95 | reading a stream is reading the concatenation of its chunks, however it is cut |
| Car.CollectBlocks | packages/repo/src/car.ts:62-65 | the loop computes the insertion-ordered map of the blocks |
| Car.ReadCar | packages/repo/src/car.ts:57-67 | the same parse as for a stream, all of it: its roots and the map of its blocks, or the first error |
| Car.WriteCarStream | packages/repo/src/car.ts:9-28 | the concatenation of the chunks is the framed header and then the framed blocks, in order |
| Car.BlocksRoundTripExactly | packages/repo/src/car.ts:148-184 | parsing the frames of some blocks gives exactly those blocks, to the end, if and only if every CID is framed as the parser expects and, when verified, matches its bytes |
| Car.CollectDistinct | packages/repo/src/car.ts:62-65 | the block map has one entry per CID, and is the blocks as they came exactly when no CID came twice |
| Car.CarRoundTrip | packages/repo/src/car.ts:9-28 | parsing the bytes of a written file gives back the root and the blocks in order and to the end, for 36-byte CIDs that match their contents |
| Car.WholeRoundTrip | packages/repo/src/car.ts:57-67 | reading the whole file into a map gives back the root and the blocks in order if and only if no CID was written twice |
| Car.WriteThenRead | packages/repo/src/car.ts:9-95 | the writer and both readers composed: the stream of the written bytes, re-cut in any way, and the whole file give back what was written |
| Car.LongCidIsCut | packages/repo/src/car.ts:153-183 | a block whose CID is longer than 36 bytes, whatever its contents, is read as one with the CID of the first 36 bytes and the rest as contents, or not at all; never as what was written |
| Car.CollectKeepsLast | packages/repo/src/car.ts:62-65 | the block map has the last block of each CID, and no other |
| Car.MapSetPlaces | packages/repo/src/car.ts:62-65 | setting an entry leaves every CID where it was, and puts a new one last |
| Truncation.ReadCutFile | packages/repo/src/car.ts:148-205 | a written file cut off anywhere behind its header, in whatever chunks, gives exactly the blocks whose frames are whole and then throws, for both readers; the error says whether the length, the CID or the contents were cut; only a cut between two frames goes unnoticed |
| Truncation.ReadCutHeader | packages/repo/src/car.ts:97-123 | a file cut off within its header is not read at all, and the error says where |
| Truncation.CutFile | packages/repo/src/car.ts:148-184 | the same for parsing the first n bytes, for every n |
| Truncation.WholeFirst | packages/repo/src/car.ts:148-173 | whole blocks in front of any bytes are read first, and do not change how those are read |
| MessageChannel.ReceiveChannel.constructor | packages/ws-client/src/message-channel.ts:246-289 | a channel starts open, empty and unpaused |
| MessageChannel.ReceiveChannel.Push | packages/ws-client/src/message-channel.ts:335-375 | the whole new state: dropped after a terminal, else mode check, hand-over to the oldest pull, hard cap before watermark |
| MessageChannel.ReceiveChannel.SettleWaiters | packages/ws-client/src/message-channel.ts:291-303 | every parked pull gets the same reply, first come first served, and none stays parked |
| MessageChannel.ReceiveChannel.Fail | packages/ws-client/src/message-channel.ts:305-313 | the whole new state: first terminal only; the queue is discarded and parked pulls are rejected |
| MessageChannel.ReceiveChannel.Finish | packages/ws-client/src/message-channel.ts:315-324 | the whole new state: first terminal only; the queue stays and parked pulls are told of the end |
| MessageChannel.ReceiveChannel.AfterDrain | packages/ws-client/src/message-channel.ts:326-333 | resumes exactly if paused and strictly below half the mark |
| MessageChannel.ReceiveChannel.Next | packages/ws-client/src/message-channel.ts:377-395 | the whole new state: the oldest queued message even after an end, else the terminal, else the pull is parked last |
| MessageChannel.ReceiveChannel.Return | packages/ws-client/src/message-channel.ts:397-410 | the whole new state: an open channel ends, discards its queue and aborts with 1000; an ended one is left as it is |
| MessageChannel.ReceiveChannel.IdleTick | packages/ws-client/src/message-channel.ts:266-285 | the whole new state: paused counts as alive, no message since the last tick fails |
| ChannelRuns.StepKeepsInvariant | packages/ws-client/src/message-channel.ts:229-423 | every operation keeps accounting, parking, alternation, watermarks, sealing and termination, for all options |
| ChannelRuns.EveryRun | packages/ws-client/src/message-channel.ts:305-385 | at every point of every run: bufferedBytes is the sum of the queued sizes and within the cap; pulls are replied to in order, and one is parked only if the queue is empty and no terminal is set; pause and resume strictly alternate; an unpaused live channel holds at most the mark and a paused one at least half of it unless failed or abandoned; after one end every pull gets that end; at most one abort |
| ChannelRuns.NothingLostOrReordered | packages/ws-client/src/message-channel.ts:305-410 | over every run, the messages delivered in pull order are a prefix of the accepted pushes, and with the queue they are all of them until a fail or an abandon discards |
| ChannelRuns.FirstTerminalWins | packages/ws-client/src/message-channel.ts:305-324 | once a terminal is set, no continuation changes it or aborts again |
| ChannelRuns.PullsDrain | packages/ws-client/src/message-channel.ts:377-395 | in every state, pulling n times takes exactly the n oldest messages off the queue and ends nothing |
| ChannelRuns.FinishThenDrainDeliversAll | packages/ws-client/src/message-channel.ts:315-324 | after a finish, enough pulls deliver every accepted message, in order, and the next pull is told of the end |
| ChannelRuns.DrainingResumes | packages/ws-client/src/message-channel.ts:326-333 | with a positive mark, a paused channel that was not failed or abandoned has something queued, and pulling that has called onResume |
| ChannelRuns.ZeroMarkNeverResumes | packages/ws-client/src/message-channel.ts:326-333 | with a mark of zero, a paused channel stays paused in every continuation |
| ChannelRuns.IdleTimeoutExactly | packages/ws-client/src/message-channel.ts:252-289 | a tick fails an open channel if and only if some earlier tick found it unpaused and no frame has arrived since |
| ChannelEnds.ModeViolationExactly | packages/ws-client/src/message-channel.ts:343-349 | a push on an open channel ends it with a mode error if and only if the mode is text and the message binary, or the other way round |
| ChannelEnds.OnlyTheModesKind | packages/ws-client/src/message-channel.ts:343-360 | in every run, all that is delivered or queued is of the mode's kind |
| ChannelEnds.BufferedIsSizes | packages/ws-client/src/message-channel.ts:86-97 | in every run, what is accounted is the size of the queued messages, two bytes a code unit of text |
| ChannelEnds.EndsExactly | packages/ws-client/src/message-channel.ts:266-410 | which operation ends an open channel, with which outcome, and what the transport is told of it, in every run |
| ChannelEnds.EndIsTold | packages/ws-client/src/message-channel.ts:291-324 | when a channel ends, every parked pull is told so at once, and the queue is kept exactly by a finish |
| WebSocketStream.Listen | packages/ws-client/src/websocket.ts:193-213 | over all a transport reports, the hooks stay in the trace language, one onConnect per open, with the last close detail recorded |
| WebSocketStream.Catch | packages/ws-client/src/websocket.ts:229-263 | how the error ends the stream, or that it retries; onError exactly before failing, onReconnect exactly before retrying |
| WebSocketStream.RunTurn | packages/ws-client/src/websocket.ts:154-271 | one turn: how it ends, which detail is recorded, and that the trace stays in the language |
| WebSocketStream.Loop | packages/ws-client/src/websocket.ts:141-271 | the loop runs up to the first turn whose verdict is an end; every connection and every retry in it is reported once |
| WebSocketStream.Websocket | packages/ws-client/src/websocket.ts:132-284 | every trace is well formed and ends with no connection up; onClose comes exactly if the stream ended, with the last dialled transport's detail; onError exactly if it failed, with that error; retries are announced with the errors of the turns before |
| WebSocketStream.OpensOnceBeforeFirstConnect | packages/ws-client/src/websocket.ts:194-203 | onOpen at most once, directly before the first onConnect, which never comes without it |
| WebSocketStream.ConnectsAndDisconnectsPair | packages/ws-client/src/websocket.ts:205-213 | onConnect and onDisconnect strictly alternate |
| WebSocketStream.ClosesOnceAndLast | packages/ws-client/src/websocket.ts:272-283 | onClose is last, so it is called once |
| WebSocketStream.EndsAfterError | packages/ws-client/src/websocket.ts:247-255 | onError is followed by onClose alone; no error, retry or close is reported while connected |
| WebSocketStream.AttemptCounts | packages/ws-client/src/websocket.ts:141-144 | the attempt of an onReconnect is the number of onReconnects since the last onConnect |
| WebSocketStream.AbnormalStandsInExactly | packages/ws-client/src/websocket.ts:272-283 | no detail is recorded if and only if the last transport dialled was never constructed, or none was dialled |
| WebSocketStream.StopInBackoff | packages/ws-client/src/websocket.ts:272-283 | a run, under the documented transport contract, that is stopped during backoff and reports the 1001 of the connection before it |
| StreamOutcomes.NormalCloseIsNoError | packages/ws-client/src/websocket.ts:235-245 | under every policy, no trace reports a 1000 close as an error |
| StreamOutcomes.NormalCloseEnds | packages/ws-client/src/websocket.ts:235-245 | a turn that completes on a 1000 close ends the stream normally under the default policy or without retries, with onClose of that detail and no error |
| StreamOutcomes.NeverRetries | packages/ws-client/src/websocket.ts:295-300 | without retries there is no onReconnect and no second turn |
| StreamOutcomes.DefaultRetriesExactly | packages/ws-client/src/lib/close-codes.ts:49-59 | the default policy retries a turn if and only if it failed of a socket, heartbeat or idle error or a close outside the fatal codes; else the stream ends with that error, or normally on a 1000 close |
| StreamOutcomes.DefaultReports | packages/ws-client/src/lib/errors.ts:20-91 | under the default policy all retries reported are of such failures, and all errors of others |
| StreamOutcomes.CustomDecides | packages/ws-client/src/websocket.ts:234-263 | the caller's policy decides by its answer, and what it throws ends the stream unreported |
| StreamOutcomes.ErrorIsOfTheLastTurn | packages/ws-client/src/websocket.ts:216-254 | an error that is reported is that of the last turn: what the transport rejected with, or its last close, or 1006 |
| StreamOutcomes.RetriesAreOfTheTurns | packages/ws-client/src/websocket.ts:216-263 | each retry is announced with the error of its turn, which nothing aborted |
| StreamOutcomes.UnjudgedTurnsEnd | packages/ws-client/src/websocket.ts:154-232 | an abort at any of the three checks, a failing url and a consumer's return end the stream there, with neither error nor retry |
| SweepLock.StepKeepsInvariant | packages/dev-env/src/get-port.ts:38-88 | every step of every call keeps: live marked calls own their markers, inspected markers are current, and of two live marked calls one has yet to decide about the other |
| SweepLock.AtMostOneHolder | packages/dev-env/src/get-port.ts:38-88 | in every interleaving of any number of calls, scans, back-offs, releases and crashes, at most one live call holds, provided no link is disturbed: none makes a marker that a live call can take for a vanished one of the same generation, which it has judged stale or can still come to |
| Disturbance.NeverReclaimedIsUndisturbed | packages/dev-env/src/get-port.ts:65-67 | the comment's assumption implies that condition |
| Disturbance.ExclusiveIfNeverReclaimed | packages/dev-env/src/get-port.ts:65-67 | the comment's own claim: exclusion, if no generation is linked twice |
| Disturbance.DisturbedLinkBreaks | packages/dev-env/src/get-port.ts:45-71 | every disturbed link of every run can be gone on from, without another link, to two live holders |
| Disturbance.LinkBreaksExactly | packages/dev-env/src/get-port.ts:45-71 | the exact condition for one link: after a run without disturbed links, what can follow it without more links breaks exclusion if and only if it is disturbed |
| Disturbance.SafeExactlyIfUndisturbed | packages/dev-env/src/get-port.ts:38-88 | the exact condition for a run: exclusion holds wherever one can get, without more links, from any point of it, if and only if none of its links is disturbed |
| Disturbance.RelinkingBreaksExclusion | packages/dev-env/src/get-port.ts:59-70 | a concrete run of three calls, with generations in the order of the clock, ends with two live holders |
| SoloCall.Directory.constructor | packages/dev-env/src/get-port.ts:116-119 | a directory without markers |
| SoloCall.Directory.List | packages/dev-env/src/get-port.ts:53-56 | every marker once, in no particular order |
| SoloCall.Directory.AcquireSweepLock | packages/dev-env/src/get-port.ts:38-88 | a call that runs alone does what its specification says for the order of the listing, and has the right outcome |
| SoloCall.ScanOutcome | packages/dev-env/src/get-port.ts:53-71 | the scan goes through exactly if every other listed marker is dead, and removes no live one but its own |
| SoloCall.SoloOutcome | packages/dev-env/src/get-port.ts:38-88 | for any order of the listing: it acquires if and only if its generation is free and every other marker is dead, and then its marker is the only one; otherwise it leaves none of its own; a live one is never removed |
| SoloCall.SoloIsARun | packages/dev-env/src/get-port.ts:38-88 | the call alone is a run of the interleaving machine: from any point of any run, steps of that one call lead to the same directory, holding exactly if it acquired |
| SoloCall.Directory.Release | packages/dev-env/src/get-port.ts:73-79 | exactly the one marker goes, if it is there |
| Tid.S32Encode | packages/common-web/src/util.ts:115-123 | the loop computes the positional code, for every number on which it ends |
| Tid.EncodeEndsExactly | packages/common-web/src/util.ts:117-121 | the encoding loop ends if and only if the number is not negative |
| Tid.S32Decode | packages/common-web/src/util.ts:125-131 | the loop computes the positional value, foreign characters counting -1 |
| Tid.DecodeEncode | packages/common-web/src/util.ts:113-131 | decoding undoes encoding, for every natural number |
| Tid.EncodeDecode | packages/common-web/src/util.ts:113-131 | encoding undoes decoding exactly on the codes without a leading zero digit |
| Tid.EncodeLength | packages/common-web/src/util.ts:115-123 | a code has k characters exactly between 32^(k-1) and 32^k |
| Tid.NewExactly | packages/common-web/src/tid.ts:9-22 | a text is a TID exactly if it has thirteen characters besides hyphens, and else the error says how many |
| Tid.FormattedReads | packages/common-web/src/tid.ts:80-86 | a TID is read back from its formatted text |
| Tid.OrderIsNumeric | packages/common-web/src/util.ts:113-131 | on codes of equal length, string order is numeric order |
| Tid.FromTimeRoundTrip | packages/common-web/src/tid.ts:50-78 | of any two integers: a TID exactly if they are natural and their codes take thirteen characters, and both are read back exactly if the clock identifier takes two of these |
| Tid.ToFromTime | packages/common-web/src/tid.ts:50-78 | a TID is rebuilt from its two parts exactly if it has no leading zero digit |
| Tid.CompareIsLexicographic | packages/common-web/src/tid.ts:92-109 | TIDs compare by timestamp and then clock identifier; equal only if the same; antisymmetric |
| Tid.ValidExactlyBelow | packages/syntax/src/tid.ts:3-24 | a generated TID satisfies the TID syntax if and only if its timestamp is below 2^54 |
| TidGenerator.Generator.constructor | packages/common-web/src/tid.ts:5-7 | the module's initial state |
| TidGenerator.Generator.Next | packages/common-web/src/tid.ts:24-44 | the whole new clock state, never behind the old one, and the answer in it, for any thirteen characters as a predecessor |
| TidGenerator.FreshTidsIncrease | packages/common-web/src/tid.ts:24-44 | for every sequence of clock readings, and whatever calls come between, TID.next() results strictly increase |
| TidGenerator.AnswerExactly | packages/common-web/src/tid.ts:36-43 | a call answers the clock's own TID without a predecessor or past it, else the successor; an error exactly if the clock or the successor is out of range; it does not return exactly if the successor is negative |
| TidGenerator.PastExactly | packages/common-web/src/tid.ts:39-42 | the clock's TID is newer than a predecessor exactly if its timestamp is higher, or as high with a higher clock identifier |
| TidGenerator.AnswerIsNewer | packages/common-web/src/tid.ts:39-43 | TID.next(prev) is strictly newer than every prev over the alphabet, and than any other thirteen characters exactly if the clock is past them or their timestamp code steps |
| TidGenerator.SuccessorOrder | packages/common-web/src/tid.ts:43-43 | the code of the next number comes after a string if and only if that is over the alphabet, or its first foreign character sorts before all digits and only last digits follow |
| TidGenerator.ForeignPredecessorHangs | packages/common-web/src/tid.ts:43-43 | thirteen tildes are accepted by the constructor, and as a predecessor the call never returns |
| TidGenerator.ForeignPredecessorAnswersOlder | packages/common-web/src/tid.ts:39-43 | a family of predecessors with one foreign character whose answer is not newer than they are, under every clock not yet as far; part of it all below 2^53 |
| TidGenerator.LaterIsNewerExactly | packages/common-web/src/tid.ts:24-44 | of two calls of a run, the later TID is newer if and only if it answers with the higher timestamp |
| TidGenerator.AnswerCarries | packages/common-web/src/tid.ts:28-39 | in every run, each answer carries the first call's draw, and without a predecessor a thousand times the highest reading so far and one for each call that did not raise it |
| TidGenerator.AnswerToCarries | packages/common-web/src/tid.ts:28-43 | with a predecessor over the alphabet, the same timestamp if that is newer, and else the predecessor's and one |
| TidGenerator.ChainedTidsIncrease | packages/repo/src/repo.ts:161-161 | revisions chained through TID.next(prev) strictly increase, under every clock and whatever other calls come between |
| TidGenerator.NewerThanPushedExactly | packages/common-web/src/tid.ts:24-44 | of any two calls of a run, the first with a predecessor and the later one without, the later is newer if and only if the clock was past the predecessor, or is past its successor by then |
| TidGenerator.PushedThenOlder | packages/common-web/src/tid.ts:24-44 | two concrete calls of a fresh generator that go backwards |
| Syntax.NsidValidatorsAgree | packages/syntax/src/nsid.ts:87-178 | on every string both NSID validators agree, and the detailed one returns the dot-separated parts, which follow the grammar |
| Syntax.ValidatedParts | packages/syntax/src/nsid.ts:96-119 | the detailed checks accept exactly the grammar on the parts |
| Syntax.RegexParts | packages/syntax/src/nsid.ts:167-172 | the regular expression matches exactly the grammar on the parts |
| Syntax.LongEnough | packages/syntax/src/nsid.ts:168-169 | the fast length check rejects no valid NSID |
| Syntax.CheckSegmentsPasses | packages/syntax/src/nsid.ts:100-110 | the loop complains of nothing exactly if every segment has 1 to 63 characters and no hyphen at an edge |
| Syntax.NsidErrorIsTheFirst | packages/syntax/src/nsid.ts:87-120 | the detailed validator names the first thing that is wrong, and of segments the first one at fault |
| Syntax.CreateFromAuthorityAndName | packages/syntax/src/nsid.ts:25-58 | an NSID is rebuilt from its authority and name |
| Syntax.EnsureValidHandle | packages/syntax/src/handle.ts:42-78 | throws nothing exactly on the strings the regular expression and the length limit accept; otherwise the error of the first label at fault, or of the check before |
| Syntax.HandleRegexParts | packages/syntax/src/handle.ts:81-82 | the regular expression matches exactly the grammar on the labels |
| Syntax.PassingLabels | packages/syntax/src/handle.ts:55-77 | the loop's checks accept exactly the grammar on the labels |
| Syntax.LabelMatches | packages/syntax/src/handle.ts:81-82 | the label expression matches exactly 1 to 63 letters, digits and hyphens, with none at the edges |
| Syntax.DidValidatorsAgree | packages/syntax/src/did.ts:17-71 | on every string both DID validators agree |
| Syntax.DidErrorIsTheFirst | packages/syntax/src/did.ts:17-49 | the DID validator names the first thing that is wrong |
| DidCore.AssertDidMethod | packages/did/src/did.ts:86-116 | accepts exactly the non-empty ranges of lower-case letters and digits; otherwise the error, and the first position at fault; a negative start passes |
| DidCore.AssertDidMsid | packages/did/src/did.ts:133-208 | the index-jumping loop terminates and accepts exactly the ranges that scan as units, escapes inside the range; otherwise the error fits what stands where it points |
| DidCore.IndexOfColon | packages/did/src/did.ts:224-224 | the first colon from a position on, if any |
| DidCore.AssertDid | packages/did/src/did.ts:210-231 | accepts exactly the strings of at most 2048 characters that the documented grammar derives; never the range error; the length, prefix and colon errors exactly when they apply |
| DidCore.ScanIsGrammar | packages/did/src/did.ts:11-18 | the scan accepts exactly what `method-specific-id` derives |
| DidCore.MatchesAt | packages/did/src/did.ts:224-230 | splitting at the first colon after the prefix decides the grammar |
| DidCore.UnitsAre | packages/did/src/did.ts:133-208 | a scanned identifier is one over the DID characters, not ending in a colon, whose percent signs are all escapes |
| DidCore.ValidatorsDiffer | packages/did/src/did.ts:210-231 | this scanner and the syntax package's validator differ in exactly two rules: escapes here, no digits in the method there |
| DidCore.UnescapedPercentAccepted | packages/syntax/src/did.ts:8-13 | `did:web:a%zz` passes both forms of the syntax package's validator and is not in the grammar |
| Labels.SetContentLabelPref | packages/api/src/agent.ts:923-987 | a list that fits the schema still does after a write |
| Labels.LookupAfterWrite | packages/api/src/agent.ts:923-987 | after a write, the key and its legacy twin are found with the new value and every other label as before |
| Labels.OneEntryAfterWrite | packages/api/src/agent.ts:969-986 | a write leaves exactly one entry for each label it touches, and the number of any other label's entries as it was |
| Labels.RawLookup | packages/api/src/agent.ts:770-782 | applying the preferences in order amounts to looking up the last entry of each label, over the defaults |
| Labels.RawAfterWrite | packages/api/src/agent.ts:770-782 | how a write changes the labels before the remap |
| Labels.RemapLegacyLabels | packages/api/src/agent.ts:1620-1638 | in any key order, a label that another one maps to reads like that one, and the rest are kept |
| Labels.SetThenGetExactly | packages/api/src/agent.ts:915-988 | set then get: the value reads back, the legacy entry notwithstanding, if and only if the key is not `__proto__` and no label in use with another value turns into it |
| Labels.UnshadowedLabelReads | packages/api/src/agent.ts:1620-1638 | the plain law, for a key that no label in use turns into |
| Labels.SetThenGetPlainly | packages/api/src/agent.ts:1603-1638 | on such a key, what is set is read, and `show` is read as `ignore` |
| Labels.TwinsAgree | packages/api/src/agent.ts:940-966 | each of the three new labels is written with its legacy twin, and the twin set alone is read as the new label |
| Labels.WriteKeepsTheRest | packages/api/src/agent.ts:969-986 | a write leaves every other preference as it was, and in its order |
| Labels.ShadowedLabelReads | packages/api/src/agent.ts:1624-1634 | a key that a label in use turns into reads like that label |
| Labels.NothingUnderProto | packages/api/src/agent.ts:779-780 | nothing is ever read under `__proto__` |
| Labels.OthersReadTheSame | packages/api/src/agent.ts:915-988 | a label other than the key and its legacy twin reads as before if and only if the key is `__proto__`, does not turn into that label, or the label already read the value |
| Labels.SettingSetsTheTarget | packages/api/src/agent.ts:1624-1634 | for any defaults and preferences, setting a key that turns into another label, as legacy labels and inherited names do, sets what that other label reads |
| Labels.ObjectInherits | packages/api/src/agent.ts:1624-1631 | `toString` turns into the text of that member, and `gore` into `graphic-media` |
| Labels.SettingAShadowedLabelFails | packages/api/src/agent.ts:1624-1634 | for any defaults and preferences, once an inherited name is set, setting the label that is that member's text has no effect on what it reads |
| Labels.ScopedWriteIsInvisible | packages/api/src/agent.ts:940-966 | a write for one labeler changes no global label |
| SavedFeeds.UniqueSavedFeeds | packages/api/src/agent.ts:796-803 | removing and re-inserting computes the last feed of each id, by last occurrence |
| SavedFeeds.LastOfEachIsTheLast | packages/api/src/agent.ts:797-803 | a feed is kept if and only if no later one has its id |
| SavedFeeds.LastOfEachDistinct | packages/api/src/agent.ts:797-803 | one feed per id, and no id that was not given |
| SavedFeeds.StableSortIsPinnedFirst | packages/api/src/agent.ts:1556-1560 | the stable sort by that comparator exists, is unique, and is the stable partition |
| SavedFeeds.SavedFeedsToUriArrays | packages/api/src/util.ts:16-39 | the values of the pinned feeds, and of all of them, in order |
| SavedFeeds.AfterWriteV2 | packages/api/src/agent.ts:1539-1595 | version 2 then reads back as the sorted feeds, and version 1 as merged, if there was one |
| SavedFeeds.AfterWriteV1 | packages/api/src/agent.ts:1514-1537 | version 1 then reads back as given, and version 2 as before |
| SavedFeeds.OverwriteStores | packages/api/src/agent.ts:794-807 | overwriting stores one feed per id, the last given, by last occurrence and then pinned first |
| SavedFeeds.MergeKeepsConsistent | packages/api/src/agent.ts:1574-1589 | the double-write keeps pinned inside saved and both duplicate-free, drops nothing, and adds all that version 1 knows |
| SavedFeeds.StepKeepsConsistent | packages/api/src/agent.ts:794-896 | every operation keeps version 1 consistent, and setSavedFeeds if and only if its arguments are |
| SavedFeeds.RunKeepsConsistent | packages/api/src/agent.ts:794-896 | over every run, version 1's pinned feeds are saved, and neither list has duplicates |
| SavedFeeds.StepKeepsIds | packages/api/src/agent.ts:794-846 | every operation keeps the ids of version 2 distinct, given new ids for added feeds |
| SavedFeeds.RemoveIdsExactly | packages/api/src/agent.ts:842-846 | removing leaves exactly the ids that were not named, and the empty one always |
| SavedFeeds.V1OpsKeepItems | packages/api/src/agent.ts:1569-1573 | nothing is written from version 1 to version 2 |
| SavedFeedsLaws.RunKeepsOthers | packages/api/src/agent.ts:1514-1595 | no run touches any preference of another kind, or moves it among those |
| SavedFeedsLaws.UpdateStores | packages/api/src/agent.ts:809-826 | updating stores the feeds there were, each pinned as the first update of its id says and otherwise unchanged, pinned ones first |
| SavedFeedsLaws.AddStores | packages/api/src/agent.ts:828-840 | adding stores the feeds there were and then the new ones, pinned ones first |
| SavedFeedsLaws.RemoveStores | packages/api/src/agent.ts:842-846 | removing stores exactly the feeds whose ids were not named, unchanged |
| SavedFeedsLaws.AddSavedStores | packages/api/src/agent.ts:861-866 | the uri is last among the saved ones, the others keep their order, and the pinned ones stay |
| SavedFeedsLaws.RemoveSavedStores | packages/api/src/agent.ts:871-876 | the uri is gone from both lists, and the others keep their order |
| SavedFeedsLaws.AddPinnedStores | packages/api/src/agent.ts:881-886 | the uri is last in both lists, and the others keep their order |
| SavedFeedsLaws.RemovePinnedStores | packages/api/src/agent.ts:891-896 | the uri is gone from the pinned ones alone, and the others keep their order |
| SavedFeedsLaws.DistinctIsAround | packages/api/src/agent.ts:861-896 | the four laws before this one apply to every list without duplicates |
| SavedFeedsLaws.CompatibleExactly | packages/api/src/agent.ts:1577-1580 | version 1 is given the feeds and lists, and nothing else |
| SavedFeedsLaws.DoubleWriteStores | packages/api/src/agent.ts:1574-1589 | a version 2 write keeps what version 1 lists, in its order and first, and adds exactly the uris of the stored feeds and lists |
| Coalesce.Set | packages/common/src/streams.ts:301-301 | copies a part of a chunk behind the bytes already in the buffer |
| Coalesce.FillUp | packages/common/src/streams.ts:308-329 | fills up and yields the buffer; what was yielded and what is in the new buffer are the old contents and the chunk |
| Coalesce.Absorb | packages/common/src/streams.ts:295-330 | the same for any chunk, and a buffer that was yielded is not written on |
| Coalesce.AbsorbAll | packages/common/src/streams.ts:292-330 | the same for all chunks: every chunk yielded is at least the minimum long and still holds what it held |
| Coalesce.CoalesceByteStream | packages/common/src/streams.ts:285-336 | in the end the output holds exactly the input; no output chunk is empty and only the last may be short; none was written once yielded |
| AsyncBuffer.Queue.constructor | packages/common-web/src/async.ts:81-86 | a fresh buffer is open and empty, its promise pending |
| AsyncBuffer.Queue.Push | packages/common-web/src/async.ts:104-107 | the whole new state: the item is last and the current promise resolved |
| AsyncBuffer.Queue.PushMany | packages/common-web/src/async.ts:109-112 | the whole new state: all items are last, in order, and the promise resolved, even for none |
| AsyncBuffer.Queue.Throw | packages/common-web/src/async.ts:140-144 | the whole new state: closed with the fault |
| AsyncBuffer.Queue.Close | packages/common-web/src/async.ts:146-149 | the whole new state: closed |
| AsyncBuffer.Queue.Advance | packages/common-web/src/async.ts:115-123 | the consumer awaits the current promise, or is at its end |
| AsyncBuffer.Queue.Wake | packages/common-web/src/async.ts:124-136 | the whole new state: the fault, the size limit, the first item, or a new promise |
| AsyncBuffer.InvariantHolds | packages/common-web/src/async.ts:74-150 | in every run, whoever waits, waits for the promise that the next push resolves, and it is resolved if there is anything to do |
| AsyncBuffer.NoLostWakeup | packages/common-web/src/async.ts:104-138 | in every run, a parked consumer of a non-empty or closed buffer can run |
| AsyncBuffer.PushWakes | packages/common-web/src/async.ts:104-112 | every push, even of nothing, lets a waiting consumer run |
| AsyncBuffer.NoBusyWaiting | packages/common-web/src/async.ts:130-136 | a consumer with nothing to do is woken at most once in vain |
| AsyncBuffer.NothingLostOrReordered | packages/common-web/src/async.ts:104-138 | in every run, the items yielded and then the buffer are exactly the pushes, in order |
| AsyncBuffer.CompletesOnlyDrained | packages/common-web/src/async.ts:116-122 | iteration completes only when every push so far was yielded |
| AsyncBuffer.EndsRightly | packages/common-web/src/async.ts:114-138 | in every run, the consumer throws exactly what was thrown last, fails as full only over the limit, and completes only if closed and given everything |
| AsyncBuffer.FaultArrives | packages/common-web/src/async.ts:140-144 | a fault that is thrown reaches the consumer, wherever it stands, before any other item |
| AsyncBuffer.OverLimitFails | packages/common-web/src/async.ts:127-129 | a buffer over its limit fails the consumer before any other item |
| AsyncBuffer.ClosedCompletes | packages/common-web/src/async.ts:115-123 | a closed and empty buffer completes the consumer |
| AsyncBuffer.ConsumerCatchesUp | packages/common-web/src/async.ts:114-138 | left to itself, a consumer is given everything queued, in order, and then waits or completes |
| EtcdMap.Map.constructor | packages/bsky/src/etcd.ts:8-19 | starts empty |
| EtcdMap.Map.Apply | packages/bsky/src/etcd.ts:68-73 | the whole new map: an event older than what is known changes nothing and notifies no one |
| EtcdMap.Map.ApplyAll | packages/bsky/src/etcd.ts:22-33 | watch events are applied in the order in which they come in |
| EtcdMap.Map.Connect | packages/bsky/src/etcd.ts:21-44 | the map of the events and the snapshot, in whichever way they interleave: each key seen in either is there, at its highest revision, with a value seen for it, and no other key is |
| EtcdMap.FinalIsNewest | packages/bsky/src/etcd.ts:68-73 | each key is present exactly if there was an event for it, with the value of its highest revision |
| EtcdMap.OrderDoesNotMatter | packages/bsky/src/etcd.ts:68-73 | the same events in any order, with any repeats, lead to the same map if and only if the events of each key's highest revision agree |
| EtcdMap.GetReadsNewest | packages/bsky/src/etcd.ts:46-48 | then `get` gives the newest event's value, and none exactly for a deleted or unknown key |
| EtcdMap.LateEventIsIgnored | packages/bsky/src/etcd.ts:68-73 | a late, older event changes nothing, so a late snapshot never resurrects a deleted key |
| EtcdMap.CommuteExactly | packages/bsky/src/etcd.ts:68-73 | two events commute if and only if they do not give one revision of one key two values |
| EtcdMap.ConnectConverges | packages/bsky/src/etcd.ts:21-44 | connecting ends in the map of all the events seen, as if they had come in any other order, if the events of each key's highest revision agree |
| LexiconValues.RoundTripExactly | packages/lexicon/src/serialize.ts:28-88 | where ipldToLex succeeds, lexToIpld gives the same value back, at any depth, if and only if no object has a field named `__proto__` |
| LexiconValues.ProtoFieldIsLost | packages/lexicon/src/serialize.ts:80-84 | an object with only that field is read, and comes back empty |
| LexiconValues.BlobKeepsItsForm | packages/lexicon/src/blob-refs.ts:27-61 | a reference, typed or untyped, is written back in the form it was read, field by field; an untyped one has size -1 |
| LexiconValues.TypedReads | packages/lexicon/src/serialize.ts:57-74 | a typed reference is read as a blob of its parts, whatever the CID parser does |
| LexiconValues.UntypedReads | packages/lexicon/src/blob-refs.ts:51-57 | an untyped one is read as a blob of size -1 if its CID text parses, and else reading throws |
| LexiconValues.IsBlobExactly | packages/lexicon/src/serialize.ts:67-74 | the hints and the schemas recognise exactly the objects of the two forms |
| LexiconValues.ReadsInPlace | packages/lexicon/src/serialize.ts:57-88 | at any depth, reading puts a blob exactly where there is an object of one of the two forms, and throws exactly if the CID text of one does not parse |

## Left out

- Car.CarRoundTrip: takes CBOR headers, `decodeCid` and content hashing as given functions with the inverse law, since their libraries are not part of this model; limits of the varint library (numbers beyond 2^53) and header schema checks are in those functions.
- Car.ReadCarBlocks: pulls the generator to its end; its laziness, `dump()`, the pause every 25 blocks, an iterator that throws, and a consumer that stops early are not modelled.
- Car.BufferedReader.Read: a chunk is a value, so that a view returned shares memory with the caller's chunk is not captured; concurrent reads are not supported by the source either.
- Car.CollectDistinct: `BlockMap` is modelled as an insertion-ordered map by CID; its own file is not part of this model beyond that.
- MessageChannel.ReceiveChannel.Push: hooks are recorded as a trace; a hook that throws or calls back into the channel is not modelled.
- MessageChannel.ReceiveChannel.IdleTick: ticks are given; the length of the interval is not modelled.
- `closeGuard`, `closeCodeForStop` and the Node and browser transports.
- WebSocketStream.Websocket: requires that transports open and close in turn; durations of the backoff, the abort forwarding and the message values passed through are left out, and a hook that throws is not modelled.
- SweepLock.AtMostOneHolder: a pid is never reused and a marker's content is a whole pid; a file with other content, which counts as stale, does not occur because markers are links to the owner file. A run with a disturbed link need not itself end with two holders: the exact statements are about what can follow it.
- SoloCall.Directory.AcquireSweepLock: is about one call that no other interrupts and whose file-system calls fail only with EEXIST; interleavings, and steps that throw, are the state machine's.
- Port reservations and `sweepStaleReservations`.
- TidGenerator.Generator.Next: numbers are unbounded, so timestamps at 2^53 and beyond lose no precision; a predecessor of characters outside Unicode's first plane, which JavaScript counts as two, is not modelled.
- `normalizeHandle`, the list of disallowed TLDs, and the handling of arguments that are not strings.
- DidCore.AssertDid: errors carry a kind and a position, not the message; non-finite `start` and `end` are not modelled.
- Labels.SetContentLabelPref: entries are values, so that the source assigns into the entry it found, before filtering that very entry out, is not captured; the check of the labeler's DID before the write is left out.
- Labels.RemapLegacyLabels: the members that objects inherit are given as a map from names to texts with the few facts that matter; the default label settings are any map.
- Reading labels per labeler, muted words, threads, and all the other preferences.
- SavedFeeds.AfterWriteV2: entries are values and their other fields, such as the timeline index of version 1, are not modelled; `validateSavedFeed` errors, after which nothing is written, and the migration inside `getPreferences` are left out.
- Coalesce.CoalesceByteStream: requires that the chunks given are not written by their producer meanwhile; the stream pipeline around the generator is left out, and an invalid `minChunkSize`, which throws, is the precondition.
- AsyncBuffer.NothingLostOrReordered: falsy items, which the consumer's test takes for none, and several consumers are not modelled.
- EtcdMap.Map.Connect: revisions are numbers already parsed; the failure of the watcher to connect is left out.
- LexiconValues.RoundTripExactly: objects are maps, so the order of fields is not captured; numbers are integers and nothing depends on them; other uses of prototypes than the dropped field are left out.
- Regex.Matches: the language of an expression; the matching engine, flags and capture groups are not modelled.
- The Merkle search tree, commits, sync, `AtUri`, datetimes, record keys, HTTP servers, authentication, storage clients and the user interface.
