# Verified model of a function boundary tracer

The repository is a tracer for Windows.  It overwrites the hotpatchable prologs of procedures so
that every call and return passes through a thunk, collects the resulting transitions in per-thread
buffers, ships these buffers to a file or to another process, and rebuilds the tree of calls from
them.  This project models its central algorithms in Dafny and proves what they are for.

| file | subject |
|---|---|
| `CallTree.dfy`, `CallForest.dfy` | rebuilding calls from a stream of transitions in which some may be missing |
| `EventBuffers.dfy`, `BufferPools.dfy` | buffers between traced threads and collectors, as a state machine and as the routines that drive it |
| `CodePatches.dfy` | patching code: encoding, checks, the patch database |
| `TracepointSync.dfy` | the tracepoint table of a context, kept in step with the patch database |
| `ThunkStack.dfy` | the shadow stack of a thread and the exception registrations it hijacks |
| `TraceFormat.dfy`, `TraceWriter.dfy`, `TraceReader.dfy`, `TraceRoundTrip.dfy` | the trace file, byte for byte: writer, reader with its sliding view, and what one says about the other |
| `TracePipeline.dfy` | buffers, file and call trees put together |
| `Qlpc.dfy` | the half-duplex transfer of messages between two processes |
| `ShutdownProtocol.dfy` | shutting tracing down through a nested state machine |
| `ThreadTls.dfy` | a pointer packed into spare bits of a thread object |
| `Common.dfy` | shared definitions |

A routine that works step by step is a method over the fields it changes, proved against a function
or a relation that says what it is for; the theorems are lemmas about those.  `hide` statements only
keep definitions out of proofs that do not need them.

`dafny verify dfyconfig.toml` checks everything.

## Where the code falls short of what it is for

Each of these is proved: the exact condition under which the code does what it should, and an input, or
every input, for which it does not.

* A call that is never closed hides everything from it on: a client's enumeration finds all entries iff
  there are none from the first such top-level call on (`CallForest.TopLevelFindsAll`); the smallest stream
  that is not found is `CallForest.UnclosedIsMissed`.
* Two collectors, as when a shutdown drains the buffers while the collector thread still runs, can hand the
  buffers of one thread over in the wrong order.  A pool keeps the order in every run iff it has at most one
  collector, or fewer than two buffers, or no thread, or buffers without room for a byte
  (`EventBuffers.OrderKeptIff`); every other pool has a run that loses it
  (`EventBuffers.TwoCollectorsReorder`).
* In builds with guard bytes, a request whose size wraps around when the guard is added is accepted
  although no buffer can hold it (`BufferPools.AcceptedFits`).
* When a handler behind a hijacked record catches an exception, the record keeps the hijacking handler
  while no frame holds the original one, and the next call intercepted under it fails
  (`ThunkStack.ThreadData.UnwindThenEntry`).
* The file of a sink can be opened iff no chunk is larger than a segment (`TraceRoundTrip.WalkSucceeds`);
  nothing bounds the debug data in image chunks, and one load with too much of it makes the file unreadable
  (`TraceRoundTrip.OversizedImage`).
* The inventory compares the size of a chunk with that of a segment only.  A chunk it accepts crosses a
  boundary iff it is larger than what is left of its segment (`TraceRoundTrip.AcceptedCrossesIff`), and can be
  read iff it has room for its own header and its last whole transition ends in the view
  (`TraceRoundTrip.AcceptedReadableIff`); an accepted file that crosses is
  `TraceRoundTrip.StraddlingAccepted`.
* The debug build asserts a stricter size than the writer needs; the four guard bytes of that build are what
  makes the assertion hold (`TraceWriter.AssertedLimit`).
* A buffer without events looks to the client like the last response of a shutdown; the server comes to
  rest iff the client calls again as often as that happens (`ShutdownProtocol.ShutDownInGeneral`).  Tracing
  never produces such buffers (`EventBuffers.NothingEmptyHanded`).
* Stopping a trace empties the tracepoint table even if the instrumentation could not be removed, as with
  more than 65535 tracepoints; the two agree afterwards iff it could be
  (`TracepointSync.Context.StopTrace`), and `TracepointSync.StopOutOfSync` is a session in which they do not.
  On one path the lock stays held; no running trace reaches it.
* The packed pointer comes back iff it is 4-aligned (`ThreadTls.UnpackPacked`).

The comment on top of `include/jptrcfmt.h` asks for 16-byte alignment of chunks; the code, and so the model,
uses 8 (line 36).

## Model

| member | source | states |
|---|---|---|
| `CallTree.EnumTransitions` | Jptrcr/jptrcr/client.c:101-415 | the counting loop over chunks delivers exactly the calls, and ends with the status, of a specification without counters that pairs each entry with the transition closing it |
| `CallTree.VisitTransition` | Jptrcr/jptrcr/client.c:213-405 | one transition keeps the loop's relation between depth, open call and calls delivered, which includes that a call is open iff depth is positive; or it ends the enumeration where the specification ends |
| `CallTree.CloseCall` | Jptrcr/jptrcr/client.c:307-386 | an exit at depth 0 delivers one call with both ends real if it is of the open procedure, else exactly two, in order: the open call with a synthetic exit, and a call of its own procedure with a synthetic entry |
| `CallTree.EnumCalls` | Jptrcr/jptrcr/client.c:639-695 | the top level is enumerated from the start of the concatenated chunks, stray exits ignored; how the stream is cut does not matter |
| `CallTree.EnumChildCalls` | Jptrcr/jptrcr/client.c:697-727 | children are enumerated from behind the entry named by the handle; no handle is an invalid argument, and an index behind the chunk an invalid handle |
| `CallTree.PositionInjective` | Jptrcr/jptrcr/client.c:294-295 | different handles name different transitions |
| `CallForest.ClosingSkipsCall` | Jptrcr/jptrcr/client.c:220-238 | a completed call inside another does not affect where the outer one is closed |
| `CallForest.FoundIsEveryEntry` | Jptrcr/jptrcr/client.c:282-306 | recursive enumeration of a level finds every entry of it once, on any stream |
| `CallForest.ChildCallsIsFound` | Jptrcr/jptrcr/client.c:302-397 | the child count of a delivered call, which wraps at 32 bits, is the number of calls recursive enumeration of its handle finds, and that enumeration ends well |
| `CallForest.LevelHandles` | Jptrcr/jptrcr/client.c:294-295 | handles of a level point forward and into the stream, so recursive enumeration terminates |
| `CallForest.ListedInside` | Jptrcr/jptrcr/client.c:249-275 | enumerating a level stops at the exit that ends it: every delivered call has its entry, named by its handle, and its exit inside the level |
| `CallForest.TopLevelFindsAll` | Jptrcr/jptrcr/client.c:249-275 | what a client's enumeration misses: exactly the entries from the first never-closed top-level call or malformed transition on |
| `CallForest.UnclosedIsMissed` | Jptrcr/jptrcr/client.c:249-275 | a single entry that is never closed is an entry that is not found |
| `CallForest.DeliveredEnds` | Jptrcr/jptrcr/client.c:307-386 | no call is synthetic at both ends, real ends carry their transitions' data, and on monotone streams exit is not before entry |
| `CallForest.MatchedCall` | Jptrcr/jptrcr/client.c:307-386 | an entry closed by an exit of the same procedure is reported as one call with the data of both |
| `CallForest.MismatchedCall` | Jptrcr/jptrcr/client.c:339-386 | an entry closed by an exit of another procedure is reported as exactly two calls, each with one real end |
| `CallForest.EndsListed` | Jptrcr/jptrcr/client.c:282-386 | no end of a level gets lost: entry and exit of each of its calls are the real ends of delivered calls, of one and the same iff the procedures agree |
| `CallForest.EndsReported` | Jptrcr/jptrcr/client.c:639-727 | the same of the calls a client gets from one enumeration, however the stream is cut into chunks |
| `CallForest.ExitsMatchEntries` | Jptrcr/jptrcr/client.c:282-386 | recursive enumeration of a level finds exactly as many real exits as the level has entries |
| `CallForest.ErrorIffBad` | Jptrcr/jptrcr/client.c:220-247 | the top level ends with an error iff there is a malformed transition anywhere in the stream |
| `CallForest.RoundTrip` | Jptrcr/jptrcr/client.c:639-727 | any forest of completed calls, printed depth first, is rebuilt exactly, with nothing synthetic |
| `CallForest.ReadCalls` | Jptrcr/jptrcr/client.c:697-727 | enumerating children of children gives the rebuilt forest, and terminates |
| `CallForest.ReadClient` | Jptrcr/jptrcr/client.c:639-727 | whatever forest was printed, and however it was cut into chunks, reading the client yields it |
| `EventBuffers.StepConserves` | Jpfbt/jpfbt/buffer.c:102-193 | no list operation loses a buffer or duplicates it |
| `EventBuffers.ConservedInEveryRun` | Jpfbt/jpfbt/buffer.c:102-193 | with any number of threads and collectors each buffer is always in exactly one place: free, dirty, a thread's, or a collector's |
| `EventBuffers.SliceOfStep` | Jpfbt/jpfbt/buffer.c:441-472 | only a reservation in a buffer and the delivery of the buffer change what it holds: one appends, guard in bounds, the other empties |
| `EventBuffers.SlicesDisjoint` | Jpfbt/jpfbt/buffer.c:441-472 | slices of a buffer handed out in any run, short of its delivery, are disjoint and lie, guard included, within the buffer; the earlier one still holds what was written |
| `EventBuffers.NothingEmptyHanded` | Jpfbt/jpfbt/buffer.c:141-184 | if threads write to a buffer they have taken before they retire it, the callback never gets an empty one |
| `EventBuffers.RunKeepsWhole` | Jpfbt/jpfbt/buffer.c:465-470 | if threads reserve whole events, buffers and deliveries consist of whole events |
| `EventBuffers.RunKeepsLabels` | Jpfbt/jpfbt/buffer.c:162-183 | a buffer carries the thread that writes to it, and no delivery exceeds the buffer size |
| `EventBuffers.StepKeepsOrder` | Jpfbt/jpfbt/buffer.c:502-594 | every step keeps, for every thread, handed over bytes, queued bytes and current bytes in the order they were reserved |
| `EventBuffers.SingleCollectorIsExclusive` | Jpfbt/jpfbt/um_buffer.c:258-275 | with at most one collector no list is flushed while another is worked on |
| `EventBuffers.PerThreadOrder` | Jpfbt/jpfbt/buffer.c:502-594 | with a single collector, under every interleaving, what the callback got for a thread is a prefix of what the thread reserved, and all of it once drained |
| `EventBuffers.OrderKeptIff` | Jpfbt/jpfbt/um_buffer.c:258-308 | the pools that keep the order of every thread in every run: exactly those without a second collector, a second buffer, a thread or room for a byte |
| `EventBuffers.TwoCollectorsReorder` | Jpfbt/jpfbt/um_buffer.c:258-308 | every pool with two collectors, two buffers, a thread and room for a byte has a run in which that fails, as when a shutdown drains while the collector thread still runs |
| `EventBuffers.SmallestReorder` | Jpfbt/jpfbt/um_buffer.c:258-308 | such a run of a pool with two buffers of one byte |
| `BufferPools.ReverseSlist` | Jpfbt/jpfbt/buffer.c:19-37 | turning the pointers of a list around gives the list of the same entries in reverse |
| `BufferPools.AcceptedFits` | Jpfbt/jpfbt/buffer.c:415-428 | a request is accepted iff it fits with its guard or adding the guard wraps around; one that wraps does not fit |
| `BufferPools.BufferPool.constructor` | Jpfbt/jpfbt/buffer.c:262-310 | all buffers start free and empty |
| `BufferPools.BufferPool.BufferFor` | Jpfbt/jpfbt/buffer.c:102-193 | with room in the current buffer nothing changes; otherwise that buffer becomes dirty, the collector is notified, and an empty one is taken from the free list unless there is none |
| `BufferPools.BufferPool.GetBuffer` | Jpfbt/jpfbt/buffer.c:408-481 | a request that fits gets the next slice of the current buffer if there is room, else the start of a fresh buffer, else nothing because none is free; one that does not fit is refused and changes nothing; guard in bounds |
| `BufferPools.BufferPool.TeardownThreadData` | Jpfbt/jpfbt/buffer.c:599-684 | the thread gives its buffer up to the dirty list |
| `BufferPools.BufferPool.FlushOrWait` | Jpfbt/jpfbt/buffer.c:502-551 | takes the dirty list in order of age, and times out iff it is empty and no stop is requested; whatever other collectors hold stays with them |
| `BufferPools.BufferPool.ProcessBuffers` | Jpfbt/jpfbt/buffer.c:483-597 | calls back for what was dirty, oldest first, and says whether there was anything |
| `BufferPools.BufferPool.DrainBuffers` | Jpfbt/jpfbt/um_buffer.c:285-297 | leaves nothing dirty, whether or not other collectors are at work |
| `BufferPools.BufferPool.Uninitialize` | Jpfbt/jpfbt/main.c:184-250 | takes the buffers of all threads, up to the first that has patched procedures on its stack, and if there is none drains them; then, if no other collector was at work, the callback has got everything every thread reserved, in order, and never an empty buffer |
| `CodePatches.NearCallReaches` | Jpfbt/jpfbt/instrument.c:66-101 | a near call that could be assembled goes to its target, also where 32-bit addresses wrap |
| `CodePatches.NearCallIff` | Jpfbt/jpfbt/instrument.c:66-101 | a near call can be assembled iff the target is less than 2 GB from the next instruction, on either side |
| `CodePatches.NewCodeIff` | Jpfbt/jpfbt/instrument.c:136-163 | the code for a procedure can be assembled iff the thunk is in its reach |
| `CodePatches.PatchedProcedureCallsThunk` | Jpfbt/jpfbt/instrument.c:136-163 | the patched prolog jumps five bytes back, to a call of the thunk |
| `CodePatches.FreshWindowsApart` | Jpfbt/jpfbt/instrument.c:683-727 | two instrumentable procedures have disjoint seven-byte windows |
| `CodePatches.FreshApartFromPatched` | Jpfbt/jpfbt/instrument.c:48-54 | an instrumentable procedure keeps clear of every patched one, whatever its call displacement |
| `CodePatches.BatchApart` | Jpfbt/jpfbt/instrument.c:165-221 | the windows of a validated batch without duplicates are disjoint |
| `CodePatches.ValidatedIff` | Jpfbt/jpfbt/instrument.c:165-221 | the verdict on the bytes around any procedure: valid iff five equal bytes of padding precede a hotpatchable prolog |
| `CodePatches.BatchSucceedsIff` | Jpfbt/jpfbt/instrument.c:249-406 | a batch succeeds iff every procedure has such bytes and the thunk in reach and the environment allows it; it is too far iff a thunk is out of reach |
| `CodePatches.RemovalSucceedsIff` | Jpfbt/jpfbt/instrument.c:473-550 | a removal succeeds iff all of the batch is registered and the environment allows it |
| `CodePatches.CodeDetermined` | Jpfbt/jpfbt/instrument.c:249-406 | code and saved bytes depend only on the original code and on which procedures are registered |
| `CodePatches.NothingRegistered` | Jpfbt/jpfbt/instrument.c:427-471 | with nothing registered the code is the original |
| `CodePatches.PatchDatabase.ValidateAll` | Jpfbt/jpfbt/um_patch.c:106-141 | succeeds iff every patch of the batch validates, else names the first that does not |
| `CodePatches.PatchDatabase.FindDoomed` | Jpfbt/jpfbt/um_patch.c:130-140 | exactly the patches whose code is not patched any more are doomed |
| `CodePatches.PatchDatabase.PatchCode` | Jpfbt/jpfbt/um_patch.c:106-243 | all checks precede all writes; on failure nothing changes, on success exactly the windows of the batch are saved and overwritten, or those not doomed put back |
| `CodePatches.PatchDatabase.InstrumentProcedures` | Jpfbt/jpfbt/instrument.c:249-406 | a batch is instrumented iff its bytes, the distance of the thunk and the environment allow it, as a whole or not at all, with exactly the status and failed procedure the source gives; the code stays the original with exactly the registered windows overwritten |
| `CodePatches.PatchDatabase.UninstrumentProcedures` | Jpfbt/jpfbt/instrument.c:473-550 | likewise for removal, which fails iff a procedure is not registered or the environment refuses |
| `CodePatches.PatchDatabase.RemoveInstrumentationAllProcedures` | Jpfbt/jpfbt/instrument.c:576-641 | on success the table is empty and the code is the original, byte for byte |
| `CodePatches.PatchDatabase.InstrumentProcedure` | Jpfbt/jpfbt/instrument.c:643-681 | the exported entry: size limits, then one of the above, with status and failed procedure |
| `CodePatches.PatchDatabase.RunBatches` | Jpfbt/jpfbt/instrument.c:576-641 | after any sequence of batches, failing ones included, removing everything restores the original code |
| `CodePatches.BatchRegistered` | Jpfbt/jpfbt/instrument.c:348-374 | applying and registering a validated batch keeps code, original and table in their relation, windows disjoint |
| `CodePatches.BatchUnregistered` | Jpfbt/jpfbt/instrument.c:438-468 | so does reverting and unregistering |
| `TracepointSync.CleanCovers` | Jpfsv/jpfsv/context.c:1042-1085 | what is passed down has no duplicates and covers exactly what was asked for and is not listed |
| `TracepointSync.SetSucceedsIff` | Jpfsv/jpfsv/context.c:1042-1131 | tracepoints are set iff no address is zero and all that are not listed can be instrumented, so listing one again is no error; they are removed iff all are listed |
| `TracepointSync.Context.CollectClean` | Jpfsv/jpfsv/context.c:1042-1087 | the nested loops compute that array, and fail iff an address is zero |
| `TracepointSync.Context.UpdateTable` | Jpfsv/jpfsv/context.c:1107-1130 | updating the table succeeds iff no procedure to add is listed and every one to remove is; entries keep their names and new ones get theirs |
| `TracepointSync.Context.Instrument` | Jpfsv/jpfsv/context.c:1089-1131 | session and table change together, or the table does not change |
| `TracepointSync.Context.SetTracePoints` | Jpfsv/jpfsv/context.c:981-1140 | succeeds iff the request is of legal size, there is a session and the above holds; the table keeps listing exactly the instrumented procedures; on success it is the old one with the request applied, on failure the old one, with exactly the status and failed procedure of the source; the lock is released |
| `TracepointSync.Context.RemoveAllTracepointsButKeepThem` | Jpfsv/jpfsv/tracetab.c:186-246 | succeeds iff everything listed fits into one batch and the environment allows it; then nothing is instrumented |
| `TracepointSync.Context.StopTrace` | Jpfsv/jpfsv/context.c:905-979 | the table is emptied in any case, so it agrees with the instrumentation iff that could be removed; the status says which step failed; the lock stays held iff there is no session |
| `TracepointSync.StopOutOfSync` | Jpfsv/jpfsv/context.c:943-969 | a session with one tracepoint whose threads cannot be suspended: the table is empty, the procedure instrumented |
| `TracepointSync.Context.StartTrace` | Jpfsv/jpfsv/context.c:842-903 | a trace runs iff one did or this call succeeds, which needs a session |
| `TracepointSync.Context.Detach` | Jpfsv/jpfsv/context.c:788-840 | the session is given up iff no trace runs or it can be stopped, and the session can be released; no trace ever runs without a session |
| `TracepointSync.Context.RunRequests` | Jpfsv/jpfsv/context.c:905-1140 | after a trace is started, any requests are served and it is stopped with success, the table is empty and the code is the original |
| `ThunkStack.ThreadData.constructor` | Jpfbt/jpfbt/buffer.c:352-359 | a new thread has an empty stack above the sentinel |
| `ThunkStack.ThreadData.LookupFrameForRegistrationRecord` | Jpfbt/jpfbt/thunksup.c:101-127 | finds the frame holding a record's handler iff a call entered under it is in progress |
| `ThunkStack.ThreadData.InstallExceptionHandler` | Jpfbt/jpfbt/thunksup.c:142-223 | the new frame takes part in exception handling for the top record: hijacks it, or is counted by the frame that did; fails iff the record is stale |
| `ThunkStack.ThreadData.UninstallExceptionHandler` | Jpfbt/jpfbt/thunksup.c:230-275 | undoes that for the topmost frame; the asserted frame counts hold |
| `ThunkStack.ThreadData.Entry` | Jpfbt/jpfbt/i386/thunks.asm:149-210 | a call is pushed unless the 255 frames are used up or the lookup fails |
| `ThunkStack.ThreadData.Exit` | Jpfbt/jpfbt/i386/thunks.asm:395-455 | the return goes to the address saved at the matching entry; underflow iff the marker is on top |
| `ThunkStack.ThreadData.UnwindThunkstack` | Jpfbt/jpfbt/thunksup.c:339-362 | pops exactly the calls entered under the top hijacked record, as many as its frame counts |
| `ThunkStack.ThreadData.Unwind` | Jpfbt/jpfbt/thunksup.c:454-542 | after an unwind the rest of the thread is as before; the record is stale iff its handler caught the exception and it stayed registered |
| `ThunkStack.ThreadData.UnwindThenEntry` | Jpfbt/jpfbt/thunksup.c:168-189 | the next call under that record is intercepted iff it was dropped; if it was caught, the lookup fails |
| `ThunkStack.ThreadData.Run` | Jpfbt/jpfbt/thunksup.c:142-275 | balanced calls and handlers leave stack and all handlers as they were; overflow iff nesting exceeds the stack |
| `ThunkStack.HijackedIffOneHolder` | Jpfbt/jpfbt/thunksup.c:202-217 | a record that is not stale is hijacked iff exactly one frame holds its original handler |
| `ThunkStack.StaleHasNoHolder` | Jpfbt/jpfbt/thunksup.c:116-126 | a stale record is hijacked and no frame holds its handler |
| `ThunkStack.FrameCountIsReferences` | Jpfbt/jpfbt/thunksup.c:187-197 | a registering frame counts one more than the frames that refer to it |
| `ThunkStack.AllHandlersRestored` | Jpfbt/jpfbt/thunksup.c:234-245 | with no call in progress all handlers are the program's own iff no record is stale |
| `ThunkStack.ChainDetermined` | Jpfbt/jpfbt/thunksup.c:142-275 | handlers and stack pointer depend only on the calls in progress |
| `ThunkStack.UnwoundRepresents` | Jpfbt/jpfbt/thunksup.c:339-362 | popping the frames of the top record leaves frames and records below consistent |
| `TraceFormat.DecodeEncoded` | include/jptrcfmt.h:102-142 | a transition packed into 16 bytes is read back, whatever the unused bits |
| `TraceFormat.TransitionBits` | include/jptrcfmt.h:102-142 | which bits hold kind, time, procedure and value |
| `TraceFormat.ReadFileHeader` | include/jptrcfmt.h:59-67 | the file header is read back as written |
| `TraceFormat.ReadTrace` | include/jptrcfmt.h:144-154 | a trace chunk written in two parts is a trace chunk of that client with that buffer |
| `TraceWriter.Sink.constructor` | Jpkfbt/jpkfag/defevntsink.c:785-817 | a new file is a header and an empty layout |
| `TraceWriter.Sink.WritePad` | Jpkfbt/jpkfag/defevntsink.c:138-178 | a pad, of which only the header is written, ends the segment |
| `TraceWriter.Sink.FlushChunk` | Jpkfbt/jpkfag/defevntsink.c:114-254 | a chunk that fits into the rest of the segment starts at the current position, any other at the next boundary behind a pad; the file stays an aligned sequence of chunks without gaps |
| `TraceWriter.PaddingBounded` | Jpkfbt/jpkfag/defevntsink.c:132-178 | pads stand only in front of chunks larger than they are, so they never take more room than the chunks |
| `TraceWriter.Sink.OnImageLoad` | Jpkfbt/jpkfag/defevntsink.c:342-458 | a queued image chunk is padded to the alignment of chunks |
| `TraceWriter.Sink.FlushImageInfoEventQueue` | Jpkfbt/jpkfag/defevntsink.c:256-276 | each queued image becomes one chunk, the latest first |
| `TraceWriter.Sink.OnProcessBuffer` | Jpkfbt/jpkfag/defevntsink.c:566-615 | a buffer of transitions is appended for its client, behind the images it may refer to |
| `TraceWriter.StraddlesIffLarger` | Jpkfbt/jpkfag/defevntsink.c:132-178 | a chunk crosses a segment boundary iff it is larger than a segment; pads are at least a header long and end on a boundary |
| `TraceWriter.BufferLimitFits` | Jpkfbt/jpkfag/jpkfagp.h:24-25 | a trace chunk fits into a segment iff its buffer is within the limit |
| `TraceWriter.AssertedLimit` | Jpkfbt/jpkfag/defevntsink.c:594-598 | the asserted limit holds of every buffer in builds with guard bytes, and of all but a full one without |
| `TraceReader.TraceFile.Map` | Jptrcr/jptrcr/open.c:418-508 | the address returned denotes the file's byte at the offset, in a view that ends after 1 MB or with the file; nothing iff the offset is behind the end |
| `TraceReader.ChunkInView` | Jptrcr/jptrcr/open.c:443-487 | a chunk within one segment lies wholly in the view of its first byte |
| `TraceReader.TraceFile.RegisterTraceBufferClient` | Jptrcr/jptrcr/client.c:506-569 | a chunk is added at the end of its client's list |
| `TraceReader.TraceFile.InspectChunk` | Jptrcr/jptrcr/open.c:121-178 | the checks of one chunk, read through the view, are those of the file |
| `TraceReader.FileHeaderVerdicts` | Jptrcr/jptrcr/open.c:17-54 | the verdict on the bytes of any file header |
| `TraceReader.ChunkVerdicts` | Jptrcr/jptrcr/open.c:121-178 | the verdict on any chunk header; of several faults the first is reported |
| `TraceReader.WalkVerdict` | Jptrcr/jptrcr/open.c:98-184 | on any file the walk goes from each accepted chunk to the byte behind it, and ends with the status of the first bad one, or with success behind the end |
| `TraceReader.ListedForClient` | Jptrcr/jptrcr/open.c:159-174 | the chunks listed for a client are exactly the accepted trace chunks on the walk that carry its ids, in file order |
| `TraceReader.TraceFile.PerformFileInventory` | Jptrcr/jptrcr/open.c:98-184 | on any file the walk ends, with the status of the first bad chunk or success, and lists for each client its chunks in order |
| `TraceReader.TraceFile.Open` | Jptrcr/jptrcr/open.c:17-54 | succeeds iff the bytes of the file header are acceptable and the inventory succeeds; the header is checked first |
| `TraceReader.TraceFile.ReadChunk` | Jptrcr/jptrcr/client.c:153-216 | the transitions of a chunk are read through the view iff they lie in it; otherwise the status says what is wrong |
| `TraceRoundTrip.SinkChunkChecked` | Jptrcr/jptrcr/open.c:121-178 | the reader accepts a chunk of the sink iff it is not larger than a segment |
| `TraceRoundTrip.WalkSucceeds` | Jptrcr/jptrcr/open.c:98-184 | the inventory of a sink's file succeeds iff no chunk is larger than a segment |
| `TraceRoundTrip.LoadOversizedImage` | Jpkfbt/jpkfag/defevntsink.c:342-458 | whatever a sink has written, one image load with more debug data than a segment makes its file unreadable |
| `TraceRoundTrip.OversizedImage` | Jpkfbt/jpkfag/defevntsink.c:342-458 | such a sink: a new one, and a load with 256 KB of debug data |
| `TraceRoundTrip.WalkMeetsLayout` | Jptrcr/jptrcr/open.c:98-184 | the inventory visits exactly the chunks and pads that were written, in order |
| `TraceRoundTrip.AcceptedCrossesIff` | Jptrcr/jptrcr/open.c:121-180 | an accepted chunk, in any file, crosses a segment boundary iff it is larger than what is left of its segment |
| `TraceRoundTrip.AcceptedReadableIff` | Jptrcr/jptrcr/open.c:121-180 | an accepted chunk of transitions can be read iff it has room for its own header and its last whole transition ends within the view |
| `TraceRoundTrip.WithinSegmentReadable` | Jptrcr/jptrcr/open.c:443-487 | an accepted chunk that stays within its segment and the file can be read |
| `TraceRoundTrip.StraddlingAccepted` | Jptrcr/jptrcr/open.c:129-132 | a file whose only chunk crosses a segment boundary, and is accepted |
| `TraceRoundTrip.ClientChunks` | Jptrcr/jptrcr/open.c:159-174 | the offsets listed for a client are those of its buffers, in order |
| `TraceRoundTrip.ReadsBuffer` | Jptrcr/jptrcr/client.c:184-190 | the transitions read from a chunk are those of its buffer |
| `TraceRoundTrip.DecodeBuffer` | Jpkfbt/jpkfag/defevntsink.c:480-495 | a buffer filled with transitions decodes to them |
| `TraceRoundTrip.ReadSink` | Jptrcr/jptrcr/open.c:98-184 | reading the file of a sink yields for each client the transitions of its buffers in the order they were processed |
| `TraceRoundTrip.ReadCallsOfClient` | Jptrcr/jptrcr/client.c:639-727 | calls printed into the buffers of a client come back as they were |
| `TracePipeline.DeliveriesWritable` | Jpkfbt/jpkfag/defevntsink.c:579-583 | in every run in which threads reserve transitions, what the callback gets meets what the sink asserts |
| `TracePipeline.DecodeFlat` | Jpfbt/jpfbt/buffer.c:568-573 | cutting a thread's bytes into buffers does not change its transitions |
| `TracePipeline.ProcessAll` | Jpkfbt/jpkfag/defevntsink.c:566-615 | delivering to the sink adds each thread's buffers, in order, to its client and to no other |
| `TracePipeline.WriteAndRead` | Jpkfbt/jpkfag/defevntsink.c:566-615 | deliveries that carry the calls a thread printed are written and read back as these calls |
| `TracePipeline.TraceAndRead` | Jpkfbt/jpkfag/defevntsink.c:566-615 | in any interleaving of threads with one collector, from reserved slices through buffers, file and reader, the calls a thread printed come back exactly |
| `Qlpc.Connection.SendReceive` | Jpufbt/jpqlpc/transfer.c:41-127 | a message is accepted iff it fits into the region, and then is what the region holds, with the full size, the own event signalled and the side waiting; any other is rejected with its status and changes nothing |
| `Qlpc.Connection.EndWait` | Jpufbt/jpqlpc/transfer.c:116-136 | a wait consumes the peer's event and yields the shared message |
| `Qlpc.Connection.Receive` | Jpufbt/jpqlpc/transfer.c:144-186 | only the server begins with a receive, and only once; every other one is refused and changes nothing |
| `Qlpc.OneToken` | Jpufbt/jpqlpc/transfer.c:12-37 | in every reachable state exactly one side holds the message or is being handed it, the events are never both signalled, and two waiting sides never both sleep on |
| `Qlpc.ReceivesLatest` | Jpufbt/jpqlpc/transfer.c:116-136 | what a side receives belongs to the client's latest request and has the size of the region |
| `Qlpc.SentIsReceived` | Jpufbt/jpqlpc/transfer.c:105-136 | after a send in any reachable state the only thing that can happen is that the peer wakes, and then it holds exactly the message that was sent |
| `Qlpc.HostEventClear` | Jpufbt/jpqlpc/transfer.c:116-119 | the assertion that the own event is clear before sending holds |
| `ShutdownProtocol.Client.Resume` | Jpufbt/jpufbt/client.c:383-447 | a successful answer of the right size with events is delivered and the request repeated, with an arbitrary body; a wrong size is a format error; otherwise the call ends with the status the source gives |
| `ShutdownProtocol.Verdicts` | Jpufbt/jpufbt/client.c:395-447 | what the client makes of any message it may receive |
| `ShutdownProtocol.ResponseAccepted` | Jpufbt/jpufbt/client.c:418-447 | the client's size check accepts the response for any buffer, and it repeats its request iff there are events |
| `ShutdownProtocol.Server.ProcessBuffer` | Jpufbt/jpufag/srvhandlers.c:15-81 | the response carries the buffer, and fits into the shared message as asserted |
| `ShutdownProtocol.Server.ShutdownTracingHandler` | Jpufbt/jpufag/srvhandlers.c:174-280 | nested, it answers with the buffer passed up, or refuses a request with a payload, and ends the nested run; at rest, it refuses with the right status or tears down and answers without events |
| `ShutdownProtocol.Server.OtherHandler` | Jpufbt/jpufag/srvhandlers.c:286-420 | the other requests are answered with their own response; only a successful initialization turns tracing on, and the server stops iff it is told so while tracing is off |
| `ShutdownProtocol.Server.FlushBufferForShutdown` | Jpufbt/jpufag/srvhandlers.c:136-172 | one buffer becomes exactly one response; afterwards the next request is pending unless nobody asks |
| `ShutdownProtocol.Server.Uninitialize` | Jpfbt/jpfbt/main.c:149-260 | nothing is handed over if the library refuses; otherwise everything, in order |
| `ShutdownProtocol.Server.ServeRequest` | Jpufbt/jpufag/server.c:82-160 | one turn of the dispatch loop, for any request, brings the client one step along its specification, or ends its call with the status due to another request |
| `ShutdownProtocol.Server.RunServerStateMachine` | Jpufbt/jpufag/server.c:63-162 | a nested run exchanges one message; the outer run stops iff it is told so, else it serves the client to the end and is then at rest or stuck where the specification says |
| `ShutdownProtocol.DrainedIff` | Jpufbt/jpufbt/client.c:446-447 | the teardown gets to its end iff buffers without events are no more than the calls the client has left |
| `ShutdownProtocol.ShutDown` | Jpufbt/jpufag/srvhandlers.c:136-280 | each buffer becomes one response with events, in order; the client ends right after the last; the server is at rest with tracing off |
| `ShutdownProtocol.ShutDownInGeneral` | Jpufbt/jpufbt/client.c:357-452 | the exact condition under which the server comes to rest, with any buffers |
| `ShutdownProtocol.ShutDownRefused` | Jpufbt/jpufag/srvhandlers.c:246-276 | while the library refuses, every call ends with its reason, nothing is handed over and tracing stays on |
| `ThreadTls.UnpackPacked` | Jpfbt/jpfbt/km_tls_retail.c:103-172 | the pointer stored is the pointer read iff it is 4-aligned, else it is rounded down |
| `ThreadTls.SystemBitsKept` | Jpfbt/jpfbt/km_tls_retail.c:131-135 | the low 16 bits of one word are always kept, the low 18 of the other iff the pointer sets none of them |
| `ThreadTls.Thread.Acquire` | Jpfbt/jpfbt/km_tls_retail.c:47-79 | the thread is acquired iff the busy bit was clear, and is busy afterwards |
| `ThreadTls.Thread.SetData` | Jpfbt/jpfbt/km_tls_retail.c:103-138 | the pointer is stored, rounded down to a multiple of four; the system keeps its bits of one word, and those of the other iff the pointer does not spill into them |
| `ThreadTls.Thread.SetThenGet` | Jpfbt/jpfbt/km_tls_retail.c:103-172 | what is read after a store is what was stored iff it is aligned |
| `ThreadTls.StoredUnderGuard` | Jpfbt/jpfbt/km_tls_retail.c:47-138 | storing between acquire and release keeps pointer and system bits |
| `ThreadTls.Thread.SetWhileAcquired` | Jpfbt/jpfbt/km_tls_retail.c:47-138 | likewise as calls; a thread that is taken is left alone |

## Left out

- Calls made from within the enumeration callback: calls are collected before they are enumerated further; a callback that enumerates again would move the mapped view under the loop.
- Nesting depth and sizes as counters: depth is unbounded here, a 32-bit `LONG` in the source; the child count and the sizes that can wrap are modelled with their width.
- Symbol and module lookup, and with it the content of image chunks: foreign code, taken to succeed.
- `TraceReader.TraceFile.PerformFileInventory`: loading the module of an image chunk is taken to succeed; where it fails the source ends the inventory with its status.
- `BufferPools.BufferPool.GetBuffer`: requests that wrap when the guard is added are excluded; they are accepted (`BufferPools.AcceptedFits`), but what is overwritten then lies outside the buffer.
- `BufferPools.BufferPool.ProcessBuffers`: models one party at a time, so an event that another thread signals during the wait shows up as a later call; `EventBuffers` covers all interleavings.
- Process ids in buffers: one process, so a constant.
- Kernel variants of buffer management and of patching, preallocation of thread data, and stopping other threads: whether they can be stopped is a parameter.
- `CodePatches.PatchDatabase.PatchCode`: page protection is one parameter for the whole batch. Modules are never unloaded here, so the patches of the database are never doomed.
- Allocation failures and failed disk writes everywhere.
- Reentrance of the thunks in kernel mode, and the exception filter's first pass through the original handler: only their effect on frames and records is modelled.
- `ThunkStack.ThreadData.InstallExceptionHandler`: where the lookup fails the source asserts and goes on with an undefined frame; the model reports the failure and changes nothing.
- `ThunkStack.ThreadData.Entry`: refuses the call in that case, where the source goes on.
- `ShutdownProtocol.Server.Uninitialize`: what the library has left is one list, in the order it hands it over; whether and why it refuses is a parameter, the loop over threads is in `BufferPools.BufferPool.Uninitialize`.
- Creating and closing ports, finite timeouts of clients and death of the peer.
- `ShutdownProtocol.Server.OtherHandler`: what initialization, instrumentation and reading a trace answer is open, as the body of a message has only the fields of a trace response here. In reading a trace the response is overwritten once for each dirty buffer.
- The size of instrumentation requests in shared memory.
- User interfaces, managed wrappers, registry, services, drivers, injection and performance counters.
