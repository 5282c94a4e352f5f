# The core of ZeroMQ 2.2, modelled and proved

The fsync repository bundles ZeroMQ 2.2.0 under `mac/obj-zmq-frame/src` and the
XMLParser tool under `mac/obj-zmq-frame/foreign/xmlParser`.  This project models
the parts of them that carry the load - the lock-free queue, the mailbox, the
message pipe, the swap, ownership and shutdown, the subscription trie, the wire
format, the schedulers, message contents, REP routing and Base64 - and proves
what they promise.

`dafny verify dfyconfig.toml` checks everything.

## How to read it

The source changes objects in place, so most modules come in three layers:

1. specification functions that say what an operation does to the fields
   (`OwnHandlers`, `PipeHandlers`, `FqSpec`, `DistSpec`, `LbSpec`, `MessageSpec`,
   `XsubSpec`, `RepSpec`, `Base64Spec`, `Wire`, ...);
2. classes with the source's fields and loops (`Own.OwnObject`, `PipeEnds.Reader`,
   `Fq.FairQueue`, `Rep.Socket`, ...), whose methods are proved to do exactly that;
3. runs: any sequence of steps of all the threads and objects together, with an
   inductive invariant and the theorems that follow from it (`YpipeSteps`,
   `Mailbox`, `OwnTree`, `PipeProtocol`, `ContextProtocol`, `MessageSpec`, `RepRuns`, ...).

What a specification function computes is stated once more in other terms, by a
lemma whose name ends in `Exactly` (`PipeProtocol.CheckReadExactly`,
`FqSpec.RecvExactly`, `MessageSpec.MoveExactly`, ...) or by an independent reference
(`Wire.DecoderIsParser`, `YpipeRefinement.StepRefines`, ...).

A step that is not enabled leaves the state as it is, so the theorems quantify
over all sequences of steps.  `YQueue`, `SwapRing`, `Subscriptions`,
`MessageEncoder` and `MessageDecoder` have no separate specification layer: their
methods are proved against the abstract value they stand for (a sequence, a FIFO
of messages, a multiset of prefixes, a stream of bytes).

| file | what it models |
|---|---|
| YpipeSteps, YpipeRefinement, Ypipe, Yqueue | ypipe.hpp, yqueue.hpp, atomic_ptr.hpp: atomic steps, the simple queue they implement, chunks and pointers |
| Mailbox | mailbox.cpp: sleeping and waking with any number of senders |
| Swap | swap.cpp: the circular file seen through two buffers |
| Own, OwnTree | own.cpp, object.cpp: ownership and termination |
| Pipe, PipeProtocol | pipe.cpp: flow control and the shutdown handshake |
| Context | ctx.cpp, reaper.cpp, the close path of socket_base.cpp |
| Trie, Xsub | trie.cpp, xsub.cpp: subscriptions and the filter |
| Wire, Encoder, Decoder, Engine | wire.hpp, encoder.\*, decoder.\*, the two events of zmq_engine.cpp |
| Array, Fq, Dist, Lb | array.hpp, fq.cpp, dist.cpp, lb.cpp: scheduling |
| Message | zmq.cpp, dist.cpp: reference counts |
| Rep | rep.cpp, xrep.cpp: routing of replies, turns |
| Base64 | XMLParserBase64Tool in xmlParser.cpp (section 4 of RFC 4648) |
| Common, DivMod | an option type, facts about `/` and `%` |

## What turned out not to hold

Where the code does less than one would expect, the model follows the code, a
lemma shows the case, and where it applies a lemma gives the exact condition.

- The comment on `signaler_t` allows one signal at a time; the mailbox can have
  two (`Mailbox.TwoSignalsAtOnce`; exactly when: `Mailbox.SignalsBounded`).
- A `term_req` that overtakes `own` is dropped (`OwnTree.EarlyRequestIsLost`;
  exactly when a request is honoured: `OwnTree.RequestHonoured`).
- A part that was written but not flushed when the reader terminates is closed by
  nobody (`PipeProtocol.UnflushedPartIsLost`; exactly what is lost:
  `PipeProtocol.LostExactly`).  A terminating reader can be made active again
  (`PipeProtocol.TerminatingReaderIsWoken`; exactly when:
  `PipeProtocol.ReactivatedExactly`).
- `terminated` of fq_t and lb_t can deactivate the wrong pipe or move on to another
  pipe in the middle of a message (`FqSpec.TerminatedKeepsActive`,
  `FqSpec.TerminatedKeepsCurrent`, both if and only if).
- `distribute` ignores the result of the decrement for a refused write; when that
  was the last reference, the content is never freed (`MessageSpec.LostExactly`;
  without interference: `MessageSpec.DistributeLoses`; with it:
  `MessageSpec.LostAlthoughTaken`).
- `zmq_msg_copy` of a message to itself never leaves an initialised message
  (`MessageSpec.CopyToItself`, with the exact condition for the counts).
- A malformed request of a peer whose outbound pipe is gone makes the reply to
  another peer disappear (`RepRuns.ReplyIsLost`), and a full outbound pipe sends the
  reply to another peer (`RepRouting.ReplyGoesAstray`; exactly when the stack reaches
  its sender: `RepRouting.StackReachesSender`).
- `encodeLength` is exact if and only if there is something to encode
  (`Base64Spec.LengthIsExact`), and `decodeSize` looks before the first character
  of a string of nothing but `=` (`Base64Spec.OutOfBoundsExactly`).

## Model

| member | source | states |
|---|---|---|
| YpipeSteps.StepKeepsInv | mac/obj-zmq-frame/src/ypipe.hpp:73-163 | every atomic step of one writer and one reader keeps the inductive invariant: positions ordered, `c` either NULL or the first unflushed position, NULL exactly while the reader sleeps, no item lost, `w` and `f` only between complete runs |
| YpipeSteps.NothingLost | mac/obj-zmq-frame/src/ypipe.hpp:73-163 | in every run, under every interleaving: items read followed by items queued are the items written minus the items unwritten, in order |
| YpipeSteps.PositionsOrdered | mac/obj-zmq-frame/src/ypipe.hpp:180-199 | in every run front <= w <= f <= back, the prefetch pointer is between front and w, and the shared pointer is NULL or equals w |
| YpipeSteps.ReaderSeesOnlyCompleteRuns | mac/obj-zmq-frame/src/ypipe.hpp:66-86 | whatever the reader got or can get without another flush belongs to a run of incomplete items that was finished before the last flush |
| YpipeSteps.UnwriteTakesOnlyIncomplete | mac/obj-zmq-frame/src/ypipe.hpp:88-97 | `unwrite` takes something back if and only if the last item still there was written as incomplete, and then it is that item |
| YpipeSteps.FlushReportsSleep | mac/obj-zmq-frame/src/ypipe.hpp:99-124 | `flush` with something to flush returns false exactly when the reader went to sleep since the last flush, with nothing to flush it returns true; also when the reader moves between the CAS and the store |
| YpipeSteps.ReaderFindsFlushed | mac/obj-zmq-frame/src/ypipe.hpp:126-163 | `check_read` is true if and only if a flushed item is unread; then `read` gets the oldest one, otherwise the reader is asleep afterwards |
| YpipeRefinement.StepRefines | mac/obj-zmq-frame/src/ypipe.hpp:73-163 | refinement: every atomic step of the lock-free pipe is a stutter or exactly one operation, with the same result, of a queue whose `flush`, `check_read` and `read` are indivisible |
| Ypipe.YPipe.PointersArePositions | mac/obj-zmq-frame/src/ypipe.hpp:102-150 | comparing two pointers into the queue is comparing their positions |
| Ypipe.YPipe.constructor | mac/obj-zmq-frame/src/ypipe.hpp:43-52 | the pointers start at the terminator element: the initial state of the step machine |
| Ypipe.YPipe.Write | mac/obj-zmq-frame/src/ypipe.hpp:73-86 | on memory (chunks and pointers): the new state is that of the step machine after the write |
| Ypipe.YPipe.Unwrite | mac/obj-zmq-frame/src/ypipe.hpp:90-97 | on memory: result and new state are those of the step machine |
| Ypipe.YPipe.Flush | mac/obj-zmq-frame/src/ypipe.hpp:102-124 | on memory: result and new state are those of the atomic steps of `flush` without interference |
| Ypipe.YPipe.CheckRead | mac/obj-zmq-frame/src/ypipe.hpp:128-149 | on memory: result and new state are those of the steps of `check_read` |
| Ypipe.YPipe.Read | mac/obj-zmq-frame/src/ypipe.hpp:153-163 | on memory: result and new state are those of the steps of `read` |
| Ypipe.YPipe.Probe | mac/obj-zmq-frame/src/ypipe.hpp:169-176 | the test is applied to the oldest item, which stays in the pipe |
| Yqueue.YQueue.AddressesDistinct | mac/obj-zmq-frame/src/yqueue.hpp:82-163 | for every chunk size: live slots and the terminator slot have pairwise distinct addresses, across chunk boundaries and reuse of chunks |
| Yqueue.YQueue.constructor | mac/obj-zmq-frame/src/yqueue.hpp:51-60 | an empty queue with one chunk |
| Yqueue.YQueue.Front | mac/obj-zmq-frame/src/yqueue.hpp:82-85 | the oldest element |
| Yqueue.YQueue.Back | mac/obj-zmq-frame/src/yqueue.hpp:89-92 | the newest element |
| Yqueue.YQueue.Push | mac/obj-zmq-frame/src/yqueue.hpp:95-117 | one more element; all others keep values and addresses; the spare chunk is reused or a chunk is allocated |
| Yqueue.YQueue.Unpush | mac/obj-zmq-frame/src/yqueue.hpp:123-145 | the newest element goes, the others keep values and addresses; a chunk that becomes unused is freed once |
| Yqueue.YQueue.Pop | mac/obj-zmq-frame/src/yqueue.hpp:148-163 | the oldest element goes, the others keep values and addresses; its chunk becomes the spare one and the previous spare is freed |
| Yqueue.YQueue.Free | mac/obj-zmq-frame/src/yqueue.hpp:133-163 | what is freed is neither in the list, nor the spare chunk, nor free already |
| Yqueue.YQueue.RetireFirstChunk | mac/obj-zmq-frame/src/yqueue.hpp:150-162 | the exchange of the spare chunk keeps it out of the live list |
| Mailbox.StepKeepsInv | mac/obj-zmq-frame/src/mailbox.cpp:50-86 | every step of any sender and of the receiver keeps the protocol invariant |
| Mailbox.AssertionsHold | mac/obj-zmq-frame/src/mailbox.cpp:60-86 | no assertion of `recv` fails in any run: the byte consumed on going passive is there, and the read after a successful wait finds a command |
| Mailbox.NoLostWakeup | mac/obj-zmq-frame/src/mailbox.cpp:50-86 | a passive receiver with a flushed unread command has a signal pending or a sender that still owes one; with nothing to read it has none pending |
| Mailbox.CommandsInOrder | mac/obj-zmq-frame/src/mailbox.cpp:50-86 | the commands received are the first ones of those sent, in the order of the mutex; with no sender inside `send` the others can all be read |
| Mailbox.SendDelivers | mac/obj-zmq-frame/src/mailbox.cpp:50-58 | in every run a sender that is let in flushes its command, and leaves one more signal if and only if the receiver sleeps |
| Mailbox.ReceiverProgress | mac/obj-zmq-frame/src/mailbox.cpp:60-86 | in every run the receiver gets the next command in at most three steps if there is one and it may look, goes to sleep if there is none, and is woken by every signal |
| Mailbox.SignalsBounded | mac/obj-zmq-frame/src/mailbox.cpp:50-86 | at most two signals are in the signaler, and two if and only if the receiver has yet to consume the byte of its previous wake-up, the pipe is awake again and no sender owes a signal |
| Mailbox.TwoSignalsAtOnce | mac/obj-zmq-frame/src/signaler.hpp:28-32 | a run with two signals at once, which the comment on the class excludes |
| Mailbox.SendWakesSleeper | mac/obj-zmq-frame/src/mailbox.cpp:50-58 | a whole `send` to a sleeping receiver leaves one more signal and the command flushed |
| Swap.SwapRing.Replay | mac/obj-zmq-frame/src/swap.cpp:121-158 | for every file size, block size and sequence of stores and fetches: the results are those of a plain FIFO of messages with one byte of the file kept free |
| Swap.SwapRing.Store | mac/obj-zmq-frame/src/swap.cpp:121-139 | the message is appended to the FIFO, without SHARED, if and only if its record leaves at least one byte free |
| Swap.SwapRing.Fetch | mac/obj-zmq-frame/src/swap.cpp:141-158 | the oldest message is returned with its length, flags and body, and leaves the FIFO |
| Swap.SwapRing.CopyToFile | mac/obj-zmq-frame/src/swap.cpp:233-260 | the bytes are appended to the pending ones, whichever buffer, block or file holds each of them; wrap-around, partial last block and shared buffers included |
| Swap.SwapRing.CopyFromFile | mac/obj-zmq-frame/src/swap.cpp:209-231 | the first pending bytes are returned and removed |
| Swap.SwapRing.FillBuf | mac/obj-zmq-frame/src/swap.cpp:262-287 | the buffer gets the block; its precondition, proved at every call, is that the whole block was saved before |
| Swap.SwapRing.SaveWriteBuf | mac/obj-zmq-frame/src/swap.cpp:289-315 | exactly the writer's block of the file changes, to the contents of the buffer |
| Swap.SwapRing.BufferSpace | mac/obj-zmq-frame/src/swap.cpp:317-323 | file size minus pending bytes, never zero |
| Swap.SwapRing.Empty | mac/obj-zmq-frame/src/swap.cpp:186-190 | true if and only if no message is stored |
| Swap.TakeIntoWriteBlock | mac/obj-zmq-frame/src/swap.cpp:222-229 | when the reader reaches the block of the writer they share the buffer, and every pending byte is still where the coupling says |
| Swap.NextBlockSaved | mac/obj-zmq-frame/src/swap.cpp:222-229 | when the reader reaches another block, that block is saved in full and its buffer is not the writer's |
| Swap.UnsharedKeeps | mac/obj-zmq-frame/src/swap.cpp:128-136 | what is stored has the body and every flag but SHARED, MORE included |
| Swap.SizeRoundTrip | mac/obj-zmq-frame/src/swap.cpp:129-147 | the length that is read back is the one that was written |
| OwnTree.StepKeepsInv | mac/obj-zmq-frame/src/own.cpp:62-208 | every step of any object of any ownership forest keeps the invariant: launches split into their sends, commands from FIFO mailboxes, reserved sequence numbers, acks of others |
| OwnTree.NoFault | mac/obj-zmq-frame/src/own.cpp:156-208 | no assertion of own.cpp fails, nothing is sent to a destroyed object, and none is destroyed with a command in its mailbox |
| OwnTree.TermSentOnce | mac/obj-zmq-frame/src/own.cpp:101-171 | no object is sent `term` twice in any run, whether its `own` came before or after the termination began; one without owner never |
| OwnTree.DestroyedAfterAll | mac/obj-zmq-frame/src/own.cpp:192-208 | a destroyed object has processed every sequenced command, reserved ones included, and got every ack it waited for |
| OwnTree.NoChildLeft | mac/obj-zmq-frame/src/own.cpp:192-208 | an object with nothing left to wait for has no living child, not even one that is still being launched by a sibling |
| OwnTree.DestroyedLast | mac/obj-zmq-frame/src/own.cpp:156-208 | everything that was ever launched below an object is destroyed before it |
| OwnTree.ShutdownCompletes | mac/obj-zmq-frame/src/own.cpp:156-208 | when no command waits to be processed or sent and no outside ack is awaited, every object that began to terminate is destroyed |
| OwnTree.TerminateAsks | mac/obj-zmq-frame/src/own.cpp:138-154 | in every run: `terminate` sends one `term_req` to the owner, who is alive, or begins the termination of an object without owner, and does nothing while it terminates |
| OwnTree.RequestHonoured | mac/obj-zmq-frame/src/own.cpp:101-122 | in every run: after the owner took a `term_req` out of its mailbox, `term` has been sent to the child if and only if the `own` for it was sent and is no longer in the mailbox; otherwise nothing was sent and the request is gone |
| OwnTree.RequestIgnored | mac/obj-zmq-frame/src/own.cpp:101-122 | a `term_req` for a child that is not, or not yet, owned changes nothing but the mailbox |
| OwnTree.EarlyRequestIsLost | mac/obj-zmq-frame/src/own.cpp:101-122 | a run in which a child asks to be terminated before its owner received `own`: the request is gone and `own` is the only command left |
| Own.OwnObject.SetOwner | mac/obj-zmq-frame/src/own.cpp:50-54 | in place: the owner, which must not be set before |
| Own.OwnObject.IncSeqnum | mac/obj-zmq-frame/src/own.cpp:56-60 | in place: one more command is to be expected |
| Own.OwnObject.RegisterTermAcks | mac/obj-zmq-frame/src/own.cpp:173-176 | in place: as many acks more are awaited |
| Own.OwnObject.ProcessSeqnum | mac/obj-zmq-frame/src/own.cpp:62-69 | in place: the new fields and the commands sent are those of the handler the theorems are about |
| Own.OwnObject.ProcessTermReq | mac/obj-zmq-frame/src/own.cpp:101-122 | in place: as the handler specification |
| Own.OwnObject.ProcessOwn | mac/obj-zmq-frame/src/own.cpp:124-136 | in place: as the handler specification |
| Own.OwnObject.Terminate | mac/obj-zmq-frame/src/own.cpp:138-154 | in place: as the handler specification |
| Own.OwnObject.ProcessTerm | mac/obj-zmq-frame/src/own.cpp:156-171 | in place: the loop sends `term` to every owned object once |
| Own.OwnObject.UnregisterTermAck | mac/obj-zmq-frame/src/own.cpp:178-185 | in place: as the handler specification |
| Own.OwnObject.CheckTermAcks | mac/obj-zmq-frame/src/own.cpp:192-208 | in place: acks to the owner and is destroyed if and only if it terminates and nothing is outstanding |
| Own.OwnObject.ProcessCommand | mac/obj-zmq-frame/src/object.cpp:58-134 | the dispatch; sequenced commands are counted after their handler |
| PipeHandlers.Lwm | mac/obj-zmq-frame/src/pipe.cpp:373-397 | for every high watermark: 1 <= lwm <= hwm, and 0 if and only if the pipe is unlimited |
| PipeProtocol.StepKeepsInv | mac/obj-zmq-frame/src/pipe.cpp:79-371 | every step of the two ends and of their mailboxes keeps the invariant on credit, contents and handshake |
| PipeProtocol.CheckReadExactly | mac/obj-zmq-frame/src/pipe.cpp:79-131 | in every run: `check_read` is true if and only if `read` then returns a part, the oldest flushed one; it changes nothing then, and otherwise finds the reader passive, the pipe empty or the delimiter |
| PipeProtocol.WriteExactly | mac/obj-zmq-frame/src/pipe.cpp:204-249 | in every run: a part is accepted if and only if the writer is not terminating and unread plus unacknowledged messages are below the high watermark; accepted parts go to the end of the pipe, refused ones nowhere |
| PipeProtocol.FlushAndRollbackExactly | mac/obj-zmq-frame/src/pipe.cpp:251-272 | in every run: `flush` makes the complete messages readable and wakes a sleeping reader; `rollback` takes back the open message and nothing else |
| PipeProtocol.NeverAboveHwm | mac/obj-zmq-frame/src/pipe.cpp:204-249 | complete unread messages never exceed the high watermark |
| PipeProtocol.LaterPartsAccepted | mac/obj-zmq-frame/src/pipe.cpp:231-249 | when a first part was accepted, no later part of the message is refused |
| PipeProtocol.AcksNeverGoBack | mac/obj-zmq-frame/src/pipe.cpp:303-314 | the acks that the writer sees never decrease and never exceed what was read |
| PipeProtocol.FullIsNotStuck | mac/obj-zmq-frame/src/pipe.cpp:124-130 | a full writer with no ack on the way: the message whose reading sends the next ack is complete and in the pipe |
| PipeProtocol.ReadingUnblocks | mac/obj-zmq-frame/src/pipe.cpp:105-131 | reading the messages that are due and processing the commands makes the full writer writable |
| PipeProtocol.ReaderIsWoken | mac/obj-zmq-frame/src/pipe.cpp:267-272 | a passive reader with flushed messages has `activate_reader` on the way |
| PipeProtocol.TerminatedOnce | mac/obj-zmq-frame/src/pipe.cpp:133-163 | whoever terminates: each end reports `terminated` at most once, no assertion fails, nothing is queued behind `pipe_term` or `pipe_term_ack` |
| PipeProtocol.TerminateExactly | mac/obj-zmq-frame/src/pipe.cpp:133-142 | in every run: either end terminates at once and once, the writer with the delimiter behind all complete messages, the reader with `pipe_term` |
| PipeProtocol.HandshakeCompletes | mac/obj-zmq-frame/src/pipe.cpp:351-366 | a terminating reader and empty mailboxes mean that both ends are gone and have reported it |
| PipeProtocol.DelimiterAfterAll | mac/obj-zmq-frame/src/pipe.cpp:79-131 | a reader that reaches the delimiter has read exactly what the writer wrote, whole messages, nothing discarded |
| PipeProtocol.ReadingEnds | mac/obj-zmq-frame/src/pipe.cpp:274-301 | if only the writer terminates, reading on delivers all parts that are left and then the delimiter |
| PipeProtocol.NothingAfterTerminate | mac/obj-zmq-frame/src/pipe.cpp:274-301 | what was accepted does not change after the writer terminated |
| PipeProtocol.PartsAccountedFor | mac/obj-zmq-frame/src/pipe.cpp:49-64 | when the reader is gone, the accepted parts are those delivered, then those it closed, then those lost; none lost if the writer terminated itself |
| PipeProtocol.LostExactly | mac/obj-zmq-frame/src/pipe.cpp:49-64 | in every run that ends with the reader gone: what is lost is exactly what was in the pipe and not flushed when the writer took `pipe_term`, so nothing is lost if and only if everything had been flushed by then |
| PipeProtocol.UnflushedPartIsLost | mac/obj-zmq-frame/src/pipe.cpp:49-64 | a run in which a part that was written but not flushed is closed by nobody |
| PipeProtocol.ReactivatedExactly | mac/obj-zmq-frame/src/pipe.cpp:133-149 | in every run: a reader can become active again after its own `terminate` if and only if it was passive when it called it |
| PipeProtocol.TerminatingReaderIsWoken | mac/obj-zmq-frame/src/pipe.cpp:144-149 | a run in which `activate_reader` makes a terminating reader active, so that reading would send an ack behind `pipe_term` |
| PipeEnds.Reader.CheckRead | mac/obj-zmq-frame/src/pipe.cpp:79-103 | in place: as the handler specification, delimiter included |
| PipeEnds.Reader.Read | mac/obj-zmq-frame/src/pipe.cpp:105-131 | in place: as the handler specification; acks at multiples of lwm |
| PipeEnds.Reader.Terminate | mac/obj-zmq-frame/src/pipe.cpp:133-142 | in place: as the handler specification |
| PipeEnds.Reader.ProcessActivateReader | mac/obj-zmq-frame/src/pipe.cpp:144-149 | in place: the reader is active |
| PipeEnds.Reader.CloseUnread | mac/obj-zmq-frame/src/pipe.cpp:49-64 | in place: the loop of the destructor reads all that was flushed and nothing else |
| PipeEnds.Writer.CheckWrite | mac/obj-zmq-frame/src/pipe.cpp:204-229 | in place: as the handler specification |
| PipeEnds.Writer.Write | mac/obj-zmq-frame/src/pipe.cpp:231-249 | in place: as the handler specification |
| PipeEnds.Writer.Rollback | mac/obj-zmq-frame/src/pipe.cpp:251-265 | in place: the loop takes back the open message and nothing else |
| PipeEnds.Writer.Flush | mac/obj-zmq-frame/src/pipe.cpp:267-272 | in place: as the handler specification |
| PipeEnds.Writer.Terminate | mac/obj-zmq-frame/src/pipe.cpp:274-301 | in place: rolls back, writes the delimiter and flushes, once |
| PipeEnds.Writer.ProcessActivateWriter | mac/obj-zmq-frame/src/pipe.cpp:303-314 | in place: as the handler specification |
| ContextProtocol.StepKeepsInv | mac/obj-zmq-frame/src/ctx.cpp:115-216 | every step of creating, closing, reaping and terminating keeps the invariant, the steps of the reaper interleaved with those of other threads |
| ContextProtocol.SlotsPartition | mac/obj-zmq-frame/src/ctx.cpp:161-216 | every socket slot is either free, once, or the slot of exactly one socket that is not destroyed |
| ContextProtocol.StoppedOnce | mac/obj-zmq-frame/src/ctx.cpp:115-216 | the reaper is told to stop at most once, and was told so exactly when the context terminates and every socket is destroyed |
| ContextProtocol.DoneOnceAndLast | mac/obj-zmq-frame/src/reaper.cpp:86-121 | `done` is sent at most once, only when every created socket is destroyed, and no command to the reaper is left |
| ContextProtocol.DoneIsSent | mac/obj-zmq-frame/src/reaper.cpp:86-121 | when the context terminates, every socket was closed and has terminated and the reaper is idle, `done` was sent |
| ContextProtocol.CreateExactly | mac/obj-zmq-frame/src/ctx.cpp:161-196 | in every run until `terminate` returns: a socket is created if and only if the termination was not announced and fewer sockets than slots are alive, in a slot of no living socket; each refusal has its own reason and changes nothing |
| ContextProtocol.CloseReaps | mac/obj-zmq-frame/src/socket_base.cpp:643-651 | in every run: closing an open socket sends it to the reaper, exactly once |
| Context.Ctx.constructor | mac/obj-zmq-frame/src/ctx.cpp:40-82 | the free slots, from the last to the first |
| Context.Ctx.CreateSocket | mac/obj-zmq-frame/src/ctx.cpp:161-196 | in place: refuses with the right error after `terminate` and without a free slot, else takes the last free slot |
| Context.Ctx.DestroySocket | mac/obj-zmq-frame/src/ctx.cpp:198-216 | in place: frees the slot, stops the reaper if it was the last socket of a terminating context |
| Context.Ctx.BeginTerminate | mac/obj-zmq-frame/src/ctx.cpp:115-143 | in place: stops the reaper at once if there is no socket |
| Context.Reaper.ProcessStop | mac/obj-zmq-frame/src/reaper.cpp:86-96 | in place: as the handler specification |
| Context.Reaper.ProcessReaped | mac/obj-zmq-frame/src/reaper.cpp:110-121 | in place: as the handler specification |
| Trie.Subscriptions.Replay | mac/obj-zmq-frame/src/trie.cpp:58-201 | every sequence of add, rm and check on a new trie gives the answers of a multiset of prefixes |
| Trie.Subscriptions.Add | mac/obj-zmq-frame/src/trie.cpp:58-132 | one more copy of exactly this prefix is stored; every node keeps a correct window and live_nodes and, but for the root, is not redundant |
| Trie.Subscriptions.Rm | mac/obj-zmq-frame/src/trie.cpp:134-167 | true if and only if the prefix was stored, and then exactly one copy of it goes |
| Trie.Subscriptions.Check | mac/obj-zmq-frame/src/trie.cpp:169-201 | true if and only if some stored prefix starts the data |
| TrieNodes.Node.Extend | mac/obj-zmq-frame/src/trie.cpp:75-109 | the four ways in which a child table grows: the window includes the character and every child stays with its character |
| TrieNodes.Node.Branch | mac/obj-zmq-frame/src/trie.cpp:69-131 | the child of the character is found or created, all other children and the counter of live nodes are right |
| TrieNodes.Prune | mac/obj-zmq-frame/src/trie.cpp:152-166 | a redundant child is taken out, every other node keeps what it stores |
| Wire.BigEndianRoundTrip | mac/obj-zmq-frame/src/wire.hpp:72-95 | reading back a number of any width gives the number |
| Wire.PutUint64 | mac/obj-zmq-frame/src/wire.hpp:72-82 | the eight bytes of the buffer are the big-endian form, the rest of it is unchanged |
| Wire.GetUint64 | mac/obj-zmq-frame/src/wire.hpp:84-95 | the number whose big-endian form the eight bytes are |
| Wire.ArrivedKeepsMore | mac/obj-zmq-frame/src/encoder.cpp:70-86 | what a message becomes on the wire has the same body and the same MORE flag |
| Wire.FramesDecode | mac/obj-zmq-frame/src/encoder.cpp:45-90 | for every list of messages: decoding what the encoder writes gives the same bodies and MORE flags, in order, and ends between two messages |
| Wire.PrefixDecodes | mac/obj-zmq-frame/src/decoder.cpp:49-129 | from any first bytes of a stream come the first of its messages, and no error |
| Wire.UniquelyDecodable | mac/obj-zmq-frame/src/encoder.cpp:53-90 | two lists of messages with the same bytes on the wire are the same, save for SHARED |
| Wire.FeedConcat | mac/obj-zmq-frame/src/decoder.hpp:93-140 | feeding the decoder in two portions is feeding it at once |
| Wire.FrameFormat | mac/obj-zmq-frame/src/encoder.cpp:66-88 | the bytes of a frame: below 254 bytes of body one byte with the size plus one, else 255 and eight bytes, the highest first; then 1 or 0 for MORE, then the body |
| Wire.DecoderIsParser | mac/obj-zmq-frame/src/decoder.cpp:49-129 | for all bytes, whoever sent them: the decoder delivers exactly the messages that a parser written from the format reads off them, and fails exactly at a size of zero |
| Encoder.MessageEncoder.GetData | mac/obj-zmq-frame/src/encoder.hpp:64-125 | into any buffer of any size, or zero-copy: the bytes returned are the next ones of the frames of the messages taken, and fewer than fit only if all were returned |
| Encoder.MessageEncoder.NextMessage | mac/obj-zmq-frame/src/encoder.cpp:53-90 | takes the next message, whose header (two bytes, or ten behind the escape byte) is the next part of the stream; false only if all that was taken was returned |
| Decoder.MessageDecoder.GetBuffer | mac/obj-zmq-frame/src/decoder.hpp:69-88 | the memory of the message itself if it misses a buffer full or more, else the buffer |
| Decoder.MessageDecoder.ProcessBuffer | mac/obj-zmq-frame/src/decoder.hpp:93-140 | copied or in place: exactly the processed bytes are consumed, what is delivered and held is what they decode to, bytes are left only if the destination refused a message |
| Decoder.MessageDecoder.OneByteSizeReady | mac/obj-zmq-frame/src/decoder.cpp:49-79 | as the automaton on the bytes consumed |
| Decoder.MessageDecoder.EightByteSizeReady | mac/obj-zmq-frame/src/decoder.cpp:81-107 | as the automaton; a size of zero is an error |
| Decoder.MessageDecoder.FlagsReady | mac/obj-zmq-frame/src/decoder.cpp:109-118 | as the automaton |
| Decoder.MessageDecoder.MessageReady | mac/obj-zmq-frame/src/decoder.cpp:120-129 | delivers the message, or keeps it if it is refused |
| Decoder.SyncedPrefix | mac/obj-zmq-frame/src/decoder.hpp:93-140 | from bytes of an encoder only its messages are delivered, in order |
| Engine.Sender.OutEvent | mac/obj-zmq-frame/src/zmq_engine.cpp:159-193 | the socket takes any part of the batch; what it took is the next part of the encoded stream |
| Engine.Receiver.InEvent | mac/obj-zmq-frame/src/zmq_engine.cpp:105-157 | reads some of the available bytes if nothing is left over, and feeds the decoder; what is not processed waits for the destination |
| Engine.DeliveredInOrder | mac/obj-zmq-frame/src/zmq_engine.cpp:105-193 | whatever the batches, chunks and refusals so far: the messages delivered are the first of those taken from the source, and nothing failed |
| Engine.AllDelivered | mac/obj-zmq-frame/src/zmq_engine.cpp:105-193 | with nothing left in the encoder, on the way, in the buffers and at the destination they are all of them |
| PipeArray.SwapPermutes | mac/obj-zmq-frame/src/array.hpp:117-124 | a swap loses and duplicates nothing |
| PipeArray.EraseRemoves | mac/obj-zmq-frame/src/array.hpp:110-115 | exactly the erased element goes |
| PipeArray.Pipes.PushBack | mac/obj-zmq-frame/src/array.hpp:99-104 | in place, with intrusive indices kept: one more element at the end |
| PipeArray.Pipes.Erase | mac/obj-zmq-frame/src/array.hpp:106-115 | in place: found by its own index, the last element takes its place and index |
| PipeArray.Pipes.Swap | mac/obj-zmq-frame/src/array.hpp:117-124 | in place: both places and both indices change |
| PipeArray.Pipes.Index | mac/obj-zmq-frame/src/array.hpp:131-134 | the index of an element is its place |
| PipeArray.RegionGains | mac/obj-zmq-frame/src/array.hpp:117-124 | a pipe swapped to the place behind a region enlarges it by this pipe |
| FqSpec.AttachExactly | mac/obj-zmq-frame/src/fq.cpp:42-55 | the attached pipe is active, all others and the current one are as before |
| FqSpec.ActivatedExactly | mac/obj-zmq-frame/src/fq.cpp:90-95 | the activated pipe is active, all others and the current one are as before |
| FqSpec.RecvExactly | mac/obj-zmq-frame/src/fq.cpp:97-139 | a part is returned if and only if some active pipe has one, and it is the next part of such a pipe; no readable pipe is deactivated and none is lost |
| FqSpec.HasInExactly | mac/obj-zmq-frame/src/fq.cpp:141-163 | true if and only if a message was begun or some active pipe has something to read; no readable pipe is deactivated |
| FqSpec.FairlyRead | mac/obj-zmq-frame/src/fq.cpp:97-163 | an active pipe that stays readable is read within as many whole messages as there are pipes, whatever the other pipes, activations and `has_in` calls do |
| FqSpec.PartsTogether | mac/obj-zmq-frame/src/fq.cpp:97-139 | all parts of a message come from one pipe |
| FqSpec.TerminatedKeepsActive | mac/obj-zmq-frame/src/fq.cpp:57-74 | removing a pipe leaves exactly the other active pipes active if and only if no pipe is passive, or it is the last active one, or passive |
| FqSpec.TerminatedKeepsCurrent | mac/obj-zmq-frame/src/fq.cpp:57-74 | removing another pipe in the middle of a message keeps the current pipe if and only if it is passive, or the current pipe is not the last active one, or the erased place is the first one and is filled by it |
| Fq.FairQueue.Attach | mac/obj-zmq-frame/src/fq.cpp:42-55 | in place: as the specification function |
| Fq.FairQueue.Activated | mac/obj-zmq-frame/src/fq.cpp:90-95 | in place: as the specification function |
| Fq.FairQueue.Recv | mac/obj-zmq-frame/src/fq.cpp:97-139 | in place: the loop gives the result and state of the specification function |
| Fq.FairQueue.HasIn | mac/obj-zmq-frame/src/fq.cpp:141-163 | in place: as the specification function |
| DistSpec.AttachExactly | mac/obj-zmq-frame/src/dist.cpp:44-67 | the attached pipe is eligible at once, and active unless a message is being sent; no other pipe changes |
| DistSpec.ActivatedExactly | mac/obj-zmq-frame/src/dist.cpp:93-105 | the activated pipe is eligible at once, and active unless a message is being sent |
| DistSpec.SendExactly | mac/obj-zmq-frame/src/dist.cpp:107-122 | after the last part of a message the active pipes are the eligible ones, and these are those from before but for the ones that refused |
| DistSpec.DistributeKeeps | mac/obj-zmq-frame/src/dist.cpp:124-200 | for every set of pipes with room: the loop ends with exactly those active, 0 <= active <= eligible <= size, nobody lost |
| DistSpec.WholeMessages | mac/obj-zmq-frame/src/dist.cpp:44-200 | in every run every pipe gets whole messages only, in the order sent, also when it is attached, refused or activated in the middle of a message |
| DistSpec.NothingWithheld | mac/obj-zmq-frame/src/dist.cpp:107-181 | a pipe that takes part and has room for every part gets every part sent from then on, whatever the other pipes do |
| Dist.Distributor.Attach | mac/obj-zmq-frame/src/dist.cpp:44-67 | in place: as the specification function |
| Dist.Distributor.Activated | mac/obj-zmq-frame/src/dist.cpp:93-105 | in place: as the specification function |
| Dist.Distributor.Distribute | mac/obj-zmq-frame/src/dist.cpp:160-181 | in place: the loop, which does not advance over a refused pipe, ends and gives the state of the specification function |
| Dist.Distributor.Send | mac/obj-zmq-frame/src/dist.cpp:107-122 | in place: as the specification function |
| LbSpec.SendExactly | mac/obj-zmq-frame/src/lb.cpp:96-145 | a part is dropped with the rest of its message, else written to an active pipe with room if and only if there is one; no pipe with room is deactivated |
| LbSpec.HasOutExactly | mac/obj-zmq-frame/src/lb.cpp:147-174 | true if and only if a message was begun or some active pipe has room |
| LbSpec.MessagesTogether | mac/obj-zmq-frame/src/lb.cpp:67-145 | in every run all parts of a message go to one pipe, or the rest of it is dropped when that pipe goes |
| LbSpec.FairlyWritten | mac/obj-zmq-frame/src/lb.cpp:96-145 | an active pipe that keeps room is written to within as many whole messages as there are pipes, whatever the other pipes, activations and `has_out` calls do |
| LbSpec.TerminateKeeps | mac/obj-zmq-frame/src/lb.cpp:67-87 | removing a pipe in the middle of a message keeps the message with its pipe, or drops its rest, when the condition of FqSpec.TerminatedKeepsCurrent holds |
| Lb.LoadBalancer.Attach | mac/obj-zmq-frame/src/lb.cpp:43-55 | in place: as the specification function |
| Lb.LoadBalancer.Activated | mac/obj-zmq-frame/src/lb.cpp:89-94 | in place: as the specification function |
| Lb.LoadBalancer.Terminated | mac/obj-zmq-frame/src/lb.cpp:67-87 | in place: as the specification function |
| Lb.LoadBalancer.Send | mac/obj-zmq-frame/src/lb.cpp:96-145 | in place: the loop gives the result and state of the specification function |
| MessageSpec.StepKeeps | mac/obj-zmq-frame/src/zmq.cpp:81-207 | every step keeps all counts right, and loses exactly the content of a refused write that takes away the last reference |
| MessageSpec.CountsConserved | mac/obj-zmq-frame/src/zmq.cpp:81-207 | in every run, with closes, copies and moves of any thread between the writes of any number of distributions: no content is freed twice or while needed, and a count is the number of messages that hold the content plus the writes still to be tried |
| MessageSpec.LostExactly | mac/obj-zmq-frame/src/dist.cpp:160-181 | in every run the contents that nobody can free any more are exactly those whose last reference was taken away by a refused write; when all messages are closed no other content is left |
| MessageSpec.InitDataExactly | mac/obj-zmq-frame/src/zmq.cpp:115-128 | the message holds a new content, alone |
| MessageSpec.CloseExactly | mac/obj-zmq-frame/src/zmq.cpp:130-161 | the message and its reference go, and the content is freed if and only if it was the last one |
| MessageSpec.MoveExactly | mac/obj-zmq-frame/src/zmq.cpp:163-177 | dest holds what src held, src is empty, every other message is as before, and so is every count but for the close of dest; src is empty also for dest == src |
| MessageSpec.CopyExactly | mac/obj-zmq-frame/src/zmq.cpp:179-207 | both messages hold what src held, marked as shared, the count is that of the holders, every other message is as before |
| MessageSpec.DistributeDelivers | mac/obj-zmq-frame/src/dist.cpp:124-181 | for every number of pipes and outcomes: exactly the pipes that take the message get one that holds its content, the message is empty, all others are as before |
| MessageSpec.DistributeLoses | mac/obj-zmq-frame/src/dist.cpp:124-181 | for every number of pipes and outcomes: without interference a distribution loses the content if and only if two or more pipes all refuse it and no other message holds it |
| MessageSpec.LostAlthoughTaken | mac/obj-zmq-frame/src/dist.cpp:160-181 | a run in which one pipe takes the message, what it took is closed before the other pipe refuses it, and the content is lost |
| MessageSpec.CopyToItself | mac/obj-zmq-frame/src/zmq.cpp:179-207 | a copy of a message to itself never leaves an initialised message, uses freed memory if and only if the content has no other holder, and keeps the counts right if and only if the body is inside the message or the count was 3 |
| Message.Store.InitData | mac/obj-zmq-frame/src/zmq.cpp:115-128 | in place: a new unshared content with one holder |
| Message.Store.Close | mac/obj-zmq-frame/src/zmq.cpp:130-161 | in place: as the specification function |
| Message.Store.Move | mac/obj-zmq-frame/src/zmq.cpp:163-177 | in place: as the specification function, dest == src included |
| Message.Store.Copy | mac/obj-zmq-frame/src/zmq.cpp:179-207 | in place: as the specification function, dest == src included |
| Message.Store.Reserve | mac/obj-zmq-frame/src/dist.cpp:151-158 | in place: the references for the writes are added or set |
| Message.Store.TryWrite | mac/obj-zmq-frame/src/dist.cpp:160-166 | in place: one turn of the loop; a refusal gives a reference back |
| Message.Store.Distribute | mac/obj-zmq-frame/src/dist.cpp:124-181 | in place and without interference: reservation, writes and detaching as the specification function |
| XsubSpec.DeliversFilter | mac/obj-zmq-frame/src/xsub.cpp:88-166 | for every stream of whole messages and every mix of `xhas_in` and `xrecv`: the parts delivered and still due are exactly those of the messages whose first part matches, in order, and `xhas_in` is true if and only if something is due |
| XsubSpec.RecvExactly | mac/obj-zmq-frame/src/xsub.cpp:88-126 | in every run `recv` returns a part if and only if one is due, and then the first one |
| XsubSpec.SubscribeExactly | mac/obj-zmq-frame/src/xsub.cpp:58-80 | a message that begins with 1 adds one copy of the prefix that follows, one that begins with 0 removes one if there is any, all others nothing |
| XsubSpec.PassMessage | mac/obj-zmq-frame/src/xsub.cpp:104-126 | a message that matches passes whole, any other is dropped whole |
| Xsub.Subscriber.Send | mac/obj-zmq-frame/src/xsub.cpp:58-80 | subscribing adds one copy of a prefix, unsubscribing removes one, anything else is ignored |
| Xsub.Subscriber.Match | mac/obj-zmq-frame/src/xsub.cpp:168-172 | true if and only if a subscribed prefix starts the first part |
| Xsub.Subscriber.Recv | mac/obj-zmq-frame/src/xsub.cpp:88-126 | in place: the loops give the result and state of the specification function |
| Xsub.Subscriber.HasIn | mac/obj-zmq-frame/src/xsub.cpp:128-166 | in place: as the specification function |
| RepRuns.RunExplained | mac/obj-zmq-frame/src/rep.cpp:38-114 | in every run the log alternates whole requests (their payload) and whole replies; every peer got, for each of its requests in order of arrival, its backtrace stack followed by the reply, and nothing else; requests without a stack bottom leave nothing |
| RepTurns.FairlyServed | mac/obj-zmq-frame/src/xrep.cpp:228-286 | over runs: a peer in an active pipe whose next message is a request is served before as many other requests have been completed as there are peers, whatever all peers and the user do |
| RepTurns.TurnsExactly | mac/obj-zmq-frame/src/rep.cpp:38-66 | in every run, by what the user has seen: `recv` is refused if and only if a reply is due, and `send` if and only if none is |
| RepRuns.CopyStackCopies | mac/obj-zmq-frame/src/rep.cpp:73-100 | the loop that copies the stack ends with the next request that has one, its stack in the outbound pipe of the peer that sent it, all other pipes untouched; or with nothing to read |
| RepRuns.NoRequestMeansNone | mac/obj-zmq-frame/src/rep.cpp:60-114 | the assertions of xrep.cpp hold when the user calls, and `recv` finds nothing only if no active pipe holds a request with a stack |
| RepRuns.ReplyWritten | mac/obj-zmq-frame/src/xrep.cpp:207-226 | a part of the reply goes to the chosen peer and no other; the last one flushes |
| RepRouting.StackReachesSender | mac/obj-zmq-frame/src/rep.cpp:73-100 | for every socket between two messages, whatever its outbound pipes: the stack of the next request ends in the pipe of its own sender if and only if that pipe is there and has room and every malformed message read before was harmless, that is, the first of its parts that `xsend` did not find full is a pipe that is there |
| RepRouting.XRecvFlow | mac/obj-zmq-frame/src/xrep.cpp:228-286 | whatever the outbound pipes: within a message there is a next part in an active pipe, and reading it keeps the socket in step |
| RepRuns.ReplyIsLost | mac/obj-zmq-frame/src/xrep.cpp:288-296 | when the outbound pipe of a peer is gone, a malformed message of that peer makes the reply to the next request, of another peer, disappear |
| RepRouting.ReplyGoesAstray | mac/obj-zmq-frame/src/rep.cpp:77-91 | when the pipe of the sender is full, the next part of its stack is taken for an identity and another peer gets the reply |
| Rep.Socket.XRecv | mac/obj-zmq-frame/src/xrep.cpp:228-286 | in place: prefetched part, next part or round-robin scan as the specification function |
| Rep.Socket.XSend | mac/obj-zmq-frame/src/xrep.cpp:164-226 | in place: as the specification function; the assertion on `current_out` holds |
| Rep.Socket.Rollback | mac/obj-zmq-frame/src/xrep.cpp:288-296 | in place: as the specification function |
| Rep.Socket.Recv | mac/obj-zmq-frame/src/rep.cpp:60-114 | in place: the loop ends and gives the result and state of the specification function |
| Rep.Socket.Send | mac/obj-zmq-frame/src/rep.cpp:38-58 | in place: as the specification function |
| Base64Spec.DecodeEncoded | mac/obj-zmq-frame/foreign/xmlParser/xmlParser.cpp:2843-2901 | for every byte string, formatted or not: decoding what was encoded, into a buffer of its size, gives it back with no error |
| Base64Spec.SizeOfEncoded | mac/obj-zmq-frame/foreign/xmlParser/xmlParser.cpp:2821-2841 | for every byte string: `decodeSize` of what was encoded is its length |
| Base64Spec.LengthIsExact | mac/obj-zmq-frame/foreign/xmlParser/xmlParser.cpp:2779-2784 | `encode` writes exactly `encodeLength` characters, line breaks and final 0 included, if and only if there is a byte to encode; never more |
| Base64Spec.OutOfBoundsExactly | mac/obj-zmq-frame/foreign/xmlParser/xmlParser.cpp:2821-2841 | `decodeSize` looks before the first character if and only if the string is not empty and consists of `=` only |
| Base64Spec.Alphabet | mac/obj-zmq-frame/foreign/xmlParser/xmlParser.cpp:2756-2773 | the 64 characters of the alphabet, the fill character, the space characters and the end, and nothing else |
| Base64Spec.GroupBits3 | mac/obj-zmq-frame/foreign/xmlParser/xmlParser.cpp:2792-2799 | the four characters of three bytes are their 24 bits, the highest first |
| Base64Spec.GroupBits2 | mac/obj-zmq-frame/foreign/xmlParser/xmlParser.cpp:2808-2815 | the three characters of two bytes are their 16 bits and two bits 0, then one fill character |
| Base64Spec.GroupBits1 | mac/obj-zmq-frame/foreign/xmlParser/xmlParser.cpp:2802-2807 | the two characters of one byte are its 8 bits and four bits 0, then two fill characters |
| Base64Spec.GroupAt | mac/obj-zmq-frame/foreign/xmlParser/xmlParser.cpp:2791-2816 | the characters from 4 * i on are the group of the bytes from 3 * i on |
| Base64Spec.FormattedIsSame | mac/obj-zmq-frame/foreign/xmlParser/xmlParser.cpp:2800-2800 | formatting adds line breaks and nothing else |
| Base64Spec.LinesOf72 | mac/obj-zmq-frame/foreign/xmlParser/xmlParser.cpp:2800-2800 | the line breaks are exactly those after every 72 characters |
| Base64.Encode | mac/obj-zmq-frame/foreign/xmlParser/xmlParser.cpp:2786-2819 | in place: fills the buffer with the encoding and the final 0 |
| Base64.Decode | mac/obj-zmq-frame/foreign/xmlParser/xmlParser.cpp:2843-2901 | in place: result code, bytes and error are those of the specification function, for every string |
| Base64.DecodeSize | mac/obj-zmq-frame/foreign/xmlParser/xmlParser.cpp:2821-2841 | in place: as the specification function, for every string |

## Left out

- fsync's own code (rsync and editor launching, status icons, JSON over a library socket): no logic of its own.
- Pollers, TCP and IPC sockets, PGM, uuid, clock, timers, error texts, Windows branches: I/O. The signaler is a counter of bytes, the socket of an engine takes and returns any number of bytes.
- Weak memory: `xchg`, `cas` and `set` of atomic_ptr.hpp are sequentially consistent atomic steps; the assembly behind them is not part of this model.
- `swap_t::rollback` and `swap_t::commit`: the FIFO theorem is about `store` and `fetch`. The code keeps a block-relative offset where it needs a file address (swap.cpp:176, swap.cpp:180) and never initialises `commit_pos`.
- PipeProtocol.LaterPartsAccepted: like the whole of PipeProtocol about pipes without a swap; the swap can fill in the middle of a message (pipe.cpp:211-215), so later parts can be refused there.
- Counter wrap-around: sequence numbers, message counters and the reference counts of the trie are unbounded.
- Allocation failure: `new` and `malloc` succeed.
- The `offset_` output of `get_data` (encoder.hpp:65-90) and message size limits other than the 64 bits of the wire format.
- `linger`: the value that `term` carries is not part of the commands.
- Atomicity: a handler of own.cpp runs as one step, as it does in the thread of its object; its launches are split into their sends. `mailbox_t::send` holds its mutex for write and flush; `ctx_t` holds its lock for the whole of each operation.
- OwnTree.NoFault: like the whole of OwnTree it reserves a sequence number (`inc_seqnum` by another thread) only for an object that is alive, which is what ctx.cpp:283-304 is for.
- PipeProtocol.TerminatedOnce: like the whole of PipeProtocol it takes it that an owner uses its end no more after its own `terminate`; `PipeProtocol.TerminatingReaderIsWoken` shows why it must.
- LbSpec.MessagesTogether: takes it that a pipe that accepted the first part of a message accepts the others, which is PipeProtocol.LaterPartsAccepted; and in its runs a pipe that goes away in the middle of a message of another pipe meets the condition of FqSpec.TerminatedKeepsCurrent, without which the code loses track of that message.
- LbSpec.FairlyWritten: `attach` and `terminated` are not events of its runs.
- DistSpec.WholeMessages: takes the same for granted; `terminated` of dist_t is not an event of its runs.
- FqSpec.FairlyRead: `terminated` is not an event of its runs, nor of those of FqSpec.PartsTogether: erasing a pipe does not keep the active pipes together; the exact conditions are lemmas about fq_t, whose code lb_t repeats.
- MessageSpec.CountsConserved: each function on messages, each write and the reservation of a distribution is one step; a distribution as a whole is not.
- MessageSpec does not model the `vsm` bodies byte by byte, nor pointers to constant data: a message holds its body itself or shares a content.
- RepRuns.RunExplained: peers stay attached while a run lasts and have identities that are not empty, and their outbound pipes have room; what happens otherwise is RepRouting.StackReachesSender; `xhas_in`, `xhas_out` and the shutdown of the socket are not modelled.
- Engine.InEvent and Engine.OutEvent do not model errors of the socket and the reconnection that follows.
- The XML parser of xmlParser.cpp: only its Base64 tool is modelled.
