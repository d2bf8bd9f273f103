# Verification of actorx

This project models the parts of the actorx library whose correctness depends on
many pieces agreeing, and proves that they do.

* **Event service** (`EventService.dfy`, `EventServiceProofs.dfy`, `Stealing.dfy`, `Polling.dfy`,
  `Stopping.dfy`, `Progress.dfy`, `Turns.dfy`, `SeveralWorkers.dfy`, `Refinement.dfy`). Threads
  run workers, steal each other's, sleep on a counter and are woken by producers. The
  model is a machine whose steps are the single atomic actions of the program, run by any
  number of threads and callers in any order. The results are about every reachable state,
  and about what one thread or caller does along its own steps, whatever others do between them.
  The refinement runs it over the lock-free queues.
* **Lock-free queue and pool** (`LockFree.dfy`, `LockFreeProofs.dfy`, `NodeLife.dfy`, `Queues.dfy`). Nodes
  with one link field move between any number of queues and pools. The machine is plain
  memory; the proofs relate it to sequences, and say where nodes go. `Queues.dfy` has the plain queue,
  and the lock-free one with its in-place reversal as its single consumer sees it.
* **Coroutines** (`Coroutine.dfy`). One life of a coroutine on its strand.
* **Copy-on-write buffers** (`Bytes.dfy`, `CowBuffer.dfy`). Handles that share counted blocks behave as
  plain values.
* **Wire format and messages** (`Varint.dfy`, `Records.dfy`, `Framing.dfy`, `WireStream.dfy`, `Message.dfy`).
  Integers of one to eight bytes, strings and two tagged records, as this program writes them
  and as others may; the stream that reads and writes them in place; and messages that put and
  get them.
* **Function hooks** (`CopyTable.dfy`, `Relocation.dfy`, `Opcodes.dfy`, `Layout.dfy`, `Trampolines.dfy`,
  `HookSites.dfy`, `Hook.dfy`). Moving instructions, allocating trampolines, and transactions that put hooks on
  and take them off, for x64.
* **Atoms** (`Atom.dfy`). Names packed into 64 bits.

`dafny verify dfyconfig.toml` checks everything.

## How the source is modelled

Concurrent code is a machine over values: an interleaving of method bodies cannot be said
with one method's contract, so each atomic action is one step, under sequential
consistency, and the results are invariants of all runs. A condition variable may wake
spuriously, a compare-exchange may fail spuriously. Handlers that post events are callers
like any others. Code that one thread runs is a class or a method with loops.

Where the code does less than its documentation says, the code is followed:

* Negative integers of two, four and eight bytes are written with their own low bytes
  instead of those of their magnitude. `Varint.RoundTrip` says exactly which survive.
* The size of a negative 64-bit integer is computed without dropping its sign first.
  `Varint.SizeCoversLength` and `Records.IdLength` say exactly when the size is the length.
* An empty message of an actor_exit is not sent, so that reading into a value that has a
  message keeps that message (`Records.ExitRoundTrip`).
* A string length of four bytes that was written as a negative number is taken for its
  magnitude; others that are negative are refused (`Framing.AnyLength`).
* With several prior workers a thread takes work off more than once
  (`Turns.TakenOffTwice`, `Turns.ExactWhenLast`, `Turns.ExactForAll`), and can then sleep
  on an event that nobody wakes it for (`SeveralWorkers.SleepsOnWork`).
* The run-time atom conversion says ten characters and allows eleven (`Atoms.Range`).
* The name of a number that is no atom's is read from outside the table (`Atoms.Decode`).
* A jump that an attach follows is not put back into the pointer by a detach
  (`Hooks.Hooks.CommitAndUndo`, `Hooks.Hooks.HookAndUnhook`), and an attach whose detour is
  the function itself reports success without doing anything (`Hooks.Hooks.Attach`).
* Detaching one pointer twice in a transaction gives its trampoline back twice
  (`Hooks.Hooks.DetachTwice`). `Hooks.Hooks.Commit` says exactly when that is harmless: when
  the region is released by the same commit.
* The size check of an attach looks at the bytes taken from the function and not at those
  written to the trampoline (`Relocation.JumpBackOverruns`, `Relocation.OverrunOverruns`).
  If the jump behind them is two bytes and more too long, it ends in the bytes kept of the
  function, whose first byte is then zero after the hook is taken off
  (`Relocation.JumpBackSpoils`, `Layouts.SpoiledIsLost`). `Hooks.Hooks.CommitAndUndo` and
  `Hooks.Hooks.HookAndUnhook` say exactly when every byte is restored.
* Taking a hook off also releases regions that were unused before it was put on, and a region
  made for it stays if regions are retained: `Hooks.Hooks.HookAndUnhook` says exactly when the
  free trampolines are the same again.

## Model

| member | source | states |
|---|---|---|
| EventServiceProofs.AccountingIdentity | actorx/asev/ev_service.hpp:518-586 | in every reachable state, for every worker: expected work + work taken in the counter + counter + producers past their push but not past their increment = queue length + stolen work not fetched + events popped but not credited + one for each stop call; no stop call counts before the flag is set |
| EventServiceProofs.NoLostEvent | actorx/asev/ev_service.hpp:526-553 | an owner asleep without a signal while its worker has events has a producer that is between its push and the end of its notify, whatever thieves did in between |
| EventServiceProofs.NoMissedWakeup | actorx/cque/mpsc_count.hpp:199-219 | an owner asleep without a signal while its counter is positive has `blocked_` raised and a caller past its increment and not past its notify |
| EventServiceProofs.NotifierProgress | actorx/cque/mpsc_count.hpp:71-80 | each step of such a caller brings the signal nearer by a measure on its phase; it is blocked only by another caller in the mutex, whose next step signals or frees the mutex |
| EventServiceProofs.StopLeavesNoneAsleep | actorx/asev/ev_service.hpp:418-430 | once a stop call has passed the last thread, no thread is asleep without a signal and every flag is set |
| EventServiceProofs.StrandGuarantee | actorx/asev/ev_service.hpp:590-614 | the token of a worker is in the workshop or with exactly one thread; the events pushed are those finished, then the one being handled, then those queued, in push order |
| EventServiceProofs.RunKeeps | actorx/asev/ev_service.hpp:480-586 | every step of a service thread keeps the joint invariant of counters, tokens, queues, mutexes and phases |
| EventServiceProofs.AdvanceKeeps | actorx/cque/mpsc_count.hpp:71-80 | every step of a notifying or stopping caller keeps it |
| EventServiceProofs.QuietKeeps | actorx/asev/ev_service.hpp:627-631 | every push of an event, start of a stop call or failed compare-exchange keeps it |
| EventServiceProofs.ReachableInv | actorx/asev/ev_service.hpp:137-159 | the invariant holds in every state of every run, for any number of threads and callers, with and without stealing |
| EventServiceProofs.StepBalance | actorx/asev/detail/worker.hpp:74-119 | one step of a thread keeps what it owes for the worker it touches in balance, stolen or not |
| Stealing.TriesAllOthers | actorx/asev/ev_service.hpp:452-586 | along the own steps of a thread that found nothing to do itself, whatever others do between them: before it is back at the top it tries the token of every other worker once, in ascending order, and of none if it must not steal |
| Stealing.TriesNoneAfterWork | actorx/asev/ev_service.hpp:577-580 | one that did some work goes back to the top at once and tries no token |
| Stealing.TriesOwnFirst | actorx/asev/ev_service.hpp:566-574 | in a turn it tries its own token once, and no other until it has taken off what it did |
| Stealing.RoundEnds | actorx/asev/ev_service.hpp:582-586 | left alone in its round over the others, it is back at the top after some number of steps, whatever is queued |
| Polling.SleepsAfterPolling | actorx/asev/ev_service.hpp:522-559 | a thread goes for its mutex if and only if it sees neither work nor, from the hundred-and-first poll on, the stop flag in six hundred polls, nor work in one more try; anything it sees sends it to its job at once, but the flag at the top, which ends it |
| Polling.PollTakesAll | actorx/asev/ev_service.hpp:532-539 | a poll moves all of the counter to what is expected |
| Stopping.StopTellsAll | actorx/asev/ev_service.hpp:418-430 | a stop call that returns has set every flag in order and then raised every counter once in order, whatever others do and however often its exchanges fail |
| Stopping.PostTellsOwner | actorx/asev/ev_service.hpp:627-631 | a producer raises the counter of the worker's owner once, and touches nothing else |
| Stopping.Exits | actorx/asev/ev_service.hpp:522-559 | a thread ends if and only if it is at the top or in front of its job and its flag is set |
| Stopping.NoTurnAfterStop | actorx/asev/ev_service.hpp:555-559 | once its flag is set it starts no turn |
| Stopping.Leaves | actorx/asev/ev_service.hpp:522-586 | and, left alone and not asleep without a reason to wake, it exits after some number of its own steps, wherever it was |
| Progress.PostIsHandled | actorx/asev/ev_service.hpp:522-631 | from every reachable state in which nothing outside holds the owner up, asleep or not: an event is posted, its producer goes on until it returns, the owner goes on, and all events of the worker are handled in order, this one last |
| Progress.HandlesAll | actorx/asev/ev_service.hpp:522-614 | a thread left alone handles every event that has been pushed to its worker, from wherever it stands in its loop, a round over other workers with any events of theirs included |
| Progress.Wakes | actorx/cque/mpsc_count.hpp:71-80 | a producer left alone returns, with the counter raised by one and the owner woken if it slept |
| Progress.GoesOn | actorx/asev/ev_service.hpp:522-614 | such a thread can always step, and goes to sleep only if its counter is zero |
| Turns.EventWorker.Work | actorx/asev/detail/worker.hpp:73-119 | handles all queued events in order, returns how many, adds them to the owner's or the thief's count, and credits a thief's to the owner |
| Turns.EventWorker.DoWork | actorx/asev/ev_service.hpp:590-614 | all that is ready is done if the token is there, which is there again afterwards, and nothing otherwise |
| Turns.TurnAlone | actorx/asev/ev_service.hpp:590-614 | in the machine, a thread that takes a token and is not interfered with does to the worker what `Work` does and puts the token back |
| Turns.Sweep | actorx/asev/ev_service.hpp:566-574 | the loop over several prior workers, each of which runs what it has ready if its token is there, takes off the work done, the stolen work, and an excess that is defined apart from the loop; every worker is left with nothing to do |
| Turns.ExactWhenLast | actorx/asev/ev_service.hpp:566-574 | that excess is zero if and only if no prior worker but the last has an event ready when the turn starts |
| Turns.TakenOffTwice | actorx/asev/ev_service.hpp:566-574 | with two prior workers, the first with one event, that is taken off twice |
| Turns.ExactForAll | actorx/asev/ev_service.hpp:137-141 | a thread takes off just the work done whatever that is, if and only if it has one prior worker at most |
| SeveralWorkers.SleepsOnWork | actorx/asev/ev_service.hpp:503-574 | a run of a thread with two workers that ends asleep with an event queued, after an event to the first and then one to the second, with no caller on the way to wake it |
| SeveralWorkers.StaysAsleep | actorx/cque/mpsc_count.hpp:199-219 | from there it never handles the event, however often the condition variable wakes it for nothing |
| Refinement.QueuesRefine | actorx/cque/mpsc_queue.hpp:643-677 | in every run of the service over the lock-free queues, pops and pushes made step by step, the service is in a state it reaches by itself, and the queue of each worker is just what the lock-free queue holds, in order |
| Refinement.OneConsumer | actorx/asev/ev_service.hpp:590-614 | no two threads step in a pop from one queue, and one in the middle of a pop has the thread that began it |
| Refinement.PopSeen | actorx/asev/detail/worker.hpp:80-84 | the event handed to the handler is the node that the lock-free queue returns, and the worker stops when that returns none |
| LockFreeProofs.LockFreeFifo | actorx/cque/mpsc_queue.hpp:643-677 | in every run, with any number of producers anywhere in their loops and nodes reused between a load and its compare-exchange, the nodes pushed are the nodes popped, in order, followed by those held; empty is reported only when all have been popped |
| LockFreeProofs.NodeConservation | actorx/cque/mpsc_pool.hpp:71-117 | every node is in exactly one of pool head, pool cache, queue head, queue cache, a consumer's taken list, a producer's hands or a client's; every list, that which a consumer has taken and is reversing included, ends after nodes of its own |
| LockFreeProofs.NeverStuck | actorx/cque/mpsc_queue.hpp:643-677 | no consumer follows a bad link, and every producer can always take a step |
| LockFreeProofs.CasKeeps | actorx/cque/mpsc_queue.hpp:670-677 | a successful compare-exchange adds exactly one node at the head and keeps the invariant, even when the old head has been recycled meanwhile |
| LockFreeProofs.ConsumeKeeps | actorx/cque/mpsc_queue.hpp:643-668 | each step of a pop or a pool get, reversal included, keeps it |
| LockFreeProofs.OutsideKeeps | actorx/cque/node_base.hpp:35-84 | creating, releasing, deleting a node, starting a push and setting its link keep it |
| LockFreeProofs.ConsumeIsFifo | actorx/cque/mpsc_queue.hpp:643-668 | each consumer step removes the oldest node or changes nothing in the abstract queue |
| LockFreeProofs.ChainEnds | actorx/cque/node_base.hpp:62-77 | the links of a list end in null within its own nodes, so that no list has a cycle |
| NodeLife.ReturnsHome | actorx/cque/node_base.hpp:78-84 | a node that a pool hands over and that is released later is pushed on that pool and no other, by the next push the releasing thread completes |
| NodeLife.PopEnds | actorx/cque/mpsc_pool.hpp:55-69 | a pop ends just when it returns a node or nothing; a node that is handed over has no link, one of a pool knows the pool, and a pool that is empty makes such a node |
| NodeLife.PushEnds | actorx/cque/mpsc_queue.hpp:670-677 | a push left alone ends after four steps at most, with its node at the head and the old head behind it |
| Queues.Queue.Push | actorx/cque/queue.hpp:196-209 | appends the node to the list |
| Queues.Queue.Pop | actorx/cque/queue.hpp:179-194 | null if and only if the list is empty; otherwise its first node, unlinked |
| Queues.MpscQueue.Push | actorx/cque/mpsc_queue.hpp:670-677 | appends the node to the contents |
| Queues.MpscQueue.Pop | actorx/cque/mpsc_queue.hpp:643-668 | the same contract as the plain queue |
| Queues.Reverse | actorx/cque/mpsc_queue.hpp:651-661 | the in-place loop leaves exactly the reversed list, linked and without repetition |
| Coroutine.NeverEnteredTwice | actorx/asev/detail/basic_corctx.hpp:129-146 | a coroutine is entered only when no thread is inside it and its node is in no queue and with no other thread, even if it was resumed before it yielded |
| Coroutine.YieldsToItsHost | actorx/asev/detail/basic_corctx.hpp:58-65 | a yield comes back in the thread that runs the coroutine, and in no other |
| Coroutine.ReleasedOnceAtTheEnd | actorx/asev/detail/basic_corctx.hpp:119-146 | it goes back to the pool at most once, after its last yield, and is nowhere afterwards |
| Coroutine.ResumeIsKept | actorx/asev/detail/basic_corctx.hpp:67-70 | an answered yield has the node in the queue once, or with one thread, and not both |
| Coroutine.StepKeeps | actorx/asev/detail/basic_corctx.hpp:100-146 | every step of every thread keeps the invariant behind these |
| Coroutine.PostsInOrder | actorx/asev/detail/basic_corctx.hpp:67-70 | in every run the strand takes what is posted to it in order, resumes of the coroutine among it; nothing is lost or taken twice |
| Coroutine.WorkerComesBack | actorx/asev/ev_service.hpp:590-614 | the strand's worker is free if and only if no thread works for it, and comes back only when its queue is empty |
| CowBuffers.Store.Perform | actorx/detail/cow_buffer.hpp:26-128 | any sequence of operations on any number of handles, their ends included, gives each the bytes and the read position that values sharing nothing would have, and every count stays the number of handles |
| CowBuffers.Store.Copy | actorx/detail/cow_buffer.hpp:34-48 | a new handle with the same bytes, read from the start; the others as before; a block is shared and none is taken |
| CowBuffers.Store.Assign | actorx/detail/cow_buffer.hpp:70-96 | the same for an existing handle; self-assignment changes nothing |
| CowBuffers.Store.Move | actorx/detail/cow_buffer.hpp:50-68 | a new handle with the bytes; the source is empty |
| CowBuffers.Store.MoveAssign | actorx/detail/cow_buffer.hpp:98-128 | the same for an existing handle |
| CowBuffers.Store.Clear | actorx/detail/cow_buffer.hpp:301-307 | the handle is empty; the others as before |
| CowBuffers.Store.Destroy | actorx/detail/intrusive_ptr.hpp:42-48 | the end of a handle leaves the others as before and releases a block just if it was the last to point there |
| CowBuffers.ReleasedWhenLeft | actorx/detail/buffer.hpp:102-114 | a block is released just when no handle points to it, so that no handle sees the bytes of a released one |
| CowBuffers.Store.Reserve | actorx/detail/cow_buffer.hpp:258-299 | no value changes, there is room for the size asked for, and the bytes behind the written ones belong to this handle alone; a block is taken if and only if the small buffer is too small or the block is shared; how much is reported |
| CowBuffers.Store.Unshare | actorx/detail/cow_buffer.hpp:287-293 | a shared block is left for a private copy and every handle keeps its value |
| CowBuffers.Store.Resize | actorx/detail/buffer.hpp:80-93 | the written bytes survive a change of size |
| CowBuffers.Store.Write | actorx/detail/cow_buffer.hpp:172-187 | counts bytes of the span as written, or returns 0 and changes nothing when they do not fit |
| CowBuffers.Store.Read | actorx/detail/cow_buffer.hpp:189-203 | counts written bytes as read, or returns 0 and changes nothing when there are not so many |
| CowBuffers.Store.SetLarge | actorx/detail/intrusive_ptr.hpp:62-82 | assigning a counted pointer moves exactly one count from the old block to the new |
| CowBuffers.Store.MoveLarge | actorx/detail/intrusive_ptr.hpp:50-60 | moving it leaves null behind and drops only the target's old count |
| CowBuffers.Recounted | actorx/detail/intrusive_ptr.hpp:62-82 | counts stay equal to the number of users when a pointer is replaced |
| CowBuffers.Alone | actorx/detail/buffer.hpp:102-114 | no other handle points to a block that is counted once |
| CowBuffers.PrivateBytes | actorx/detail/cow_buffer.hpp:148-158 | writing into such a block changes no other handle |
| Varint.RoundTrip | dependencies/adata/adata/adata.hpp:1832-2433 | reading a written integer, whatever follows, gives it back and stops behind it if and only if it is not negative, or of a one-byte type, or minus half a power of 256 |
| Varint.ReadWritten | dependencies/adata/adata/adata.hpp:1832-2433 | what comes back for every integer, and that just the bytes written are taken |
| Varint.MinusOneIsLost | dependencies/adata/adata/adata.hpp:2338-2361 | a 64-bit -1 comes back as -255 |
| Varint.SkipWritten | dependencies/adata/adata/adata.hpp:1736-1831 | passing over any written integer passes just its bytes |
| Varint.SizeCoversLength | dependencies/adata/adata/adata.hpp:172-246 | the size is never below the length, and equal but for 64-bit values between -2^56 and 0 |
| Varint.ReadsItsType | dependencies/adata/adata/adata.hpp:683-697 | whatever bytes are read, a value that is read is one of the type |
| Varint.ReadAcross | dependencies/adata/adata/adata.hpp:683-697 | any integer of one type read as another: an error for a negative one read as unsigned, another for a magnitude past the bytes of the type, and otherwise the value it gives |
| Varint.BytesSent | dependencies/adata/adata/adata.hpp:2053-2433 | the tag and the bytes behind it, one by one |
| Records.LengthIsFixedPoint | actorx/actor/actor_id.adl.h:77-79 | the length written in a header is the length of the record with the header, although it counts its own bytes |
| Records.IdLength | actorx/actor/actor_id.adl.h:61-80 | the size of an actor_id is its length if and only if no field is between -2^56 and 0 |
| Records.IdRoundTrip | actorx/actor/actor_id.adl.h:34-92 | reading a written actor_id into any value gives it back and stops at its end if and only if every field is not negative or the least; passing over it stops there if and only if the sizes are right |
| Records.IdForward | actorx/actor/actor_id.adl.h:34-53 | a record with more mask bits and more fields behind the known ones is read with the known fields intact, and reading and passing over both stop at its end |
| Records.ExitLength | actorx/actor/actor_exit.adl.h:58-77 | the size of an actor_exit is its length |
| Records.ExitRoundTrip | actorx/actor/actor_exit.adl.h:29-92 | reading a written actor_exit gives it back and stops at its end if and only if the message is not empty or was empty before; passing over it always stops there |
| Records.ExitForward | actorx/actor/actor_exit.adl.h:29-50 | the same for actor_exit as for actor_id, into any value: a message that is there is read, and one that is not leaves the value's own |
| Records.StrRoundTrip | dependencies/adata/adata/adata.hpp:2487-2510 | reading a written string gives it back and stops behind it, and its size is its length |
| Framing.IdBytes | actorx/actor/actor_id.adl.h:82-92 | the six bytes of an actor_id of small numbers |
| Framing.ExitBytes | actorx/actor/actor_exit.adl.h:79-92 | the bytes of an actor_exit with a short message or none |
| Framing.IntCut | dependencies/adata/adata/adata.hpp:1832-2051 | an integer cut short anywhere is an overflow |
| Framing.StrCut | dependencies/adata/adata/adata.hpp:2495-2502 | and so is a string |
| Framing.IdCut | actorx/actor/actor_id.adl.h:34-53 | an actor_id cut short anywhere is an overflow, read or passed over, and never read as another |
| Framing.ExitCut | actorx/actor/actor_exit.adl.h:29-50 | and so is an actor_exit |
| Framing.AnyLength | dependencies/adata/adata/adata.hpp:2495-2502 | what a string reader makes of any number for a length, and of any bytes behind it |
| Framing.IdRead | actorx/actor/actor_id.adl.h:34-53 | an actor_id record under any mask and with any length, read into any value: just the fields whose bit is set are read; where reading and passing over end, or that they overflow |
| Framing.ExitRead | actorx/actor/actor_exit.adl.h:29-50 | the same for actor_exit |
| WireStream.ZeroCopyBuffer.Append | dependencies/adata/adata/adata.hpp:1490-1512 | writes all bytes or none, and none outside the span |
| WireStream.ZeroCopyBuffer.SkipRead | dependencies/adata/adata/adata.hpp:1514-1524 | the next bytes, or an overflow that moves nothing |
| WireStream.ZeroCopyBuffer.GetChar | dependencies/adata/adata/adata.hpp:1480-1488 | the next byte, or an overflow that moves nothing |
| WireStream.ZeroCopyBuffer.WriteInt | dependencies/adata/adata/adata.hpp:2053-2433 | appends the encoding if there is room, and otherwise reports it and writes nothing |
| WireStream.ZeroCopyBuffer.ReadInt | dependencies/adata/adata/adata.hpp:1832-2051 | the decoded value or the error that is due, where reading stops in each case, and when the stream goes bad |
| WireStream.ZeroCopyBuffer.SkipInt | dependencies/adata/adata/adata.hpp:1736-1831 | passes the bytes of one integer, or reports an overflow |
| WireStream.ZeroCopyBuffer.WriteStr | dependencies/adata/adata/adata.hpp:2504-2510 | appends length and bytes if there is room |
| WireStream.ZeroCopyBuffer.ReadStr | dependencies/adata/adata/adata.hpp:2495-2502 | the decoded string or the error that is due |
| WireStream.ZeroCopyBuffer.WriteId | actorx/actor/actor_id.adl.h:82-92 | appends the encoding of an actor_id if and only if there is room |
| WireStream.ZeroCopyBuffer.ReadId | actorx/actor/actor_id.adl.h:34-53 | the decoded actor_id or error, and stops where the decoder says |
| WireStream.ZeroCopyBuffer.WriteExit | actorx/actor/actor_exit.adl.h:79-92 | appends the encoding of an actor_exit if and only if there is room |
| WireStream.ZeroCopyBuffer.ReadExit | actorx/actor/actor_exit.adl.h:29-50 | the decoded actor_exit or error, and stops where the decoder says |
| WireStream.ZeroCopyBuffer.SkipRecord | dependencies/adata/adata/adata.hpp:2524-2539 | passes a record by its length |
| Messages.MessageStore.Put | actorx/actor/message.hpp:105-117 | puts any item, negative or not, without overflowing the span reserved for it; only this message changes |
| Messages.MessageStore.Get | actorx/actor/message.hpp:134-143 | what a get returns in every case, what follows the written bytes included, and how far the message then counts as read |
| Messages.MessageStore.Perform | actorx/actor/message.hpp:105-143 | any sequence of puts, gets, copies, moves, assignments, clears and ends over any number of messages: every get returns the item that is next in its message |
| Messages.ItemRoundTrip | actorx/actor/message.hpp:105-143 | an item put and got comes back if and only if it is one the codec keeps |
| Messages.SizeCovers | actorx/actor/message.hpp:108-109 | the size reserved is positive and covers what is written |
| CopyTables.MovedEffects | dependencies/xhook/xhook.cpp:5854-5872 | the code moved does what the code it came from does, instruction by instruction, if and only if no branch and no relative operand in it is out of reach |
| CopyTables.CodeFits | dependencies/xhook/xhook.cpp:4503-4506 | the code moved takes 27 of the 30 bytes there are at most, if no short branch in it has a prefix; one that has, which is made four bytes longer too, is not part of the table |
| Relocation.JumpBackOverruns | dependencies/xhook/xhook.cpp:5983-5987 | the six-byte jump behind the code moved is written past the thirty bytes for code if and only if the function starts with two short conditional jumps and an instruction of more than twelve bytes that is no branch; short branches with a prefix are not part of the table |
| Relocation.JumpBackSpoils | dependencies/xhook/xhook.cpp:4501-4517 | it is written over the bytes kept of the function, and then just over the first of them, if and only if that third instruction has fifteen bytes |
| Relocation.OverrunOverruns | dependencies/xhook/xhook.cpp:5932-5939 | a function that starts with two short conditional jumps and a locked or of a quadword: the jump behind it ends one byte past the code's room, and the bytes taken from the function pass the size check |
| Relocation.SpoiledSpoils | dependencies/xhook/xhook.cpp:5929-5987 | the same with two more prefixes: an attach to it succeeds, and its jump ends in the bytes kept |
| Layouts.SpoiledIsLost | dependencies/xhook/xhook.cpp:5416-5419 | what a removal then writes over that function is not what was there |
| Relocation.LockOrSize | dependencies/xhook/xhook.cpp:832-899 | the entries for the prefixes and for 81 make thirteen and fifteen bytes of those instructions |
| CopyTables.ConsumedIsMoved | dependencies/xhook/xhook.cpp:5854-5872 | how much of a function is moved does not depend on where it goes |
| CopyTables.FootprintIsSmall | dependencies/xhook/xhook.cpp:5931-5938 | the check for too many bytes never fails |
| Relocation.KeepsTarget | dependencies/xhook/xhook.cpp:858-1013 | a moved branch keeps its flow and its absolute target, and a moved instruction with an operand relative to the instruction pointer the address of that, if and only if the address is within 32 bits of the new place; other instructions are copied as they are |
| Relocation.BranchMoved | dependencies/xhook/xhook.cpp:925-957 | a short jump becomes a near one and a short conditional jump a near conditional one with the same condition, longer by what is reported |
| Relocation.X64Lawful | dependencies/xhook/xhook.cpp:811-899 | the x64 table meets the laws of a table that the results about copying need, whichever entry each opcode has |
| Relocation.ShortReaches | dependencies/xhook/xhook.cpp:943-955 | a short branch always reaches from a trampoline in range |
| Relocation.NeverShort | dependencies/xhook/xhook.cpp:4574-4575 | a trampoline never starts with a short jump |
| Relocation.CXHookDis.AdjustTarget | dependencies/xhook/xhook.cpp:960-1013 | patches just the offset, of any width there is; reports the old target; and reports extra bytes if and only if the new offset does not fit |
| Relocation.CXHookDis.CopyBytes | dependencies/xhook/xhook.cpp:833-899 | for any entry and any prefixes: the bytes taken, with ModR/M and SIB, the bytes written, the target, which is none for a data operand, and the extra bytes |
| Relocation.OperandKept | dependencies/xhook/xhook.cpp:858-899 | a copied operand, code or data, leads to the address it led to if and only if the distance fits its width |
| Relocation.CXHookDis.CopyBytesJump | dependencies/xhook/xhook.cpp:926-957 | writes the near form of a short branch, and reports growth and the target, by the sign of the byte |
| Relocation.CXHookDis.CopyInstruction | dependencies/xhook/xhook.cpp:812-830 | bytes written, bytes used, growth and target of one instruction |
| Relocation.CXHookDis.CopyPrefixed | dependencies/xhook/xhook.cpp:902-923 | an instruction that is no branch is copied prefix by prefix and then by its entry, with its operand relative to the instruction pointer adjusted |
| Relocation.CXHookDis.Copy0F | dependencies/xhook/xhook.cpp:1027-1034 | the two-step copy of a two-byte opcode is a copy of the whole instruction |
| Relocation.CopyTarget | dependencies/xhook/xhook.cpp:5854-5884 | the loops of an attach end, lay instructions back to back at the start of the trampoline, write nothing else, and pass over filler |
| Opcodes.ByteHasSign | dependencies/xhook/xhook.cpp:932-935 | the offset of a short branch has a sign |
| Opcodes.Branches | dependencies/xhook/xhook.cpp:926-957 | which opcodes branch |
| Opcodes.ShortGoes | dependencies/xhook/xhook.cpp:932-935 | where a short jump and each short conditional one go, by the bytes, forwards and backwards |
| Opcodes.NearGoes | dependencies/xhook/xhook.cpp:4586-4589 | where a near jump or call goes, by the bytes |
| Opcodes.NearWhenGoes | dependencies/xhook/xhook.cpp:948-955 | where a near conditional jump goes, by the bytes |
| Opcodes.ShortMovedGoes | dependencies/xhook/xhook.cpp:926-957 | the near form of a short branch goes to where that goes, from every place within reach |
| Opcodes.ModRmRows | dependencies/xhook/xhook.cpp:748-766 | the table of ModR/M bytes, row by row |
| Opcodes.ModRmSize | dependencies/xhook/xhook.cpp:849-884 | the length of an instruction with ModR/M and SIB bytes, and where its relative operand is, for every value of the two |
| Opcodes.FixedSizes | dependencies/xhook/xhook.cpp:836-842 | what prefixes make of the length |
| Opcodes.StopsBehind | dependencies/xhook/xhook.cpp:4594-4618 | behind each of the instructions that end a function, opcode by opcode, nothing is moved |
| Opcodes.GoesOnBehind | dependencies/xhook/xhook.cpp:5854-5872 | behind every other instruction the loop goes on until there are enough bytes |
| Opcodes.TakenSomewhere | dependencies/xhook/xhook.cpp:5854-5872 | in all code there are places where the instructions start that the loop takes |
| Opcodes.FootprintOf | dependencies/xhook/xhook.cpp:5854-5884 | how many bytes a jump takes the place of: those instructions and, if they are too few, the filler behind them as far as it goes |
| Layouts.MakeImage | dependencies/xhook/xhook.cpp:5843-5987 | every byte of the trampoline that an attach makes, the jump behind the code, the breaks and the bytes kept included, or that the function is too short |
| Layouts.Complete | dependencies/xhook/xhook.cpp:5927-5987 | what is written after the code, in the order of the program, leaves each byte as the last write that covers it |
| Layouts.RestoreRead | dependencies/xhook/xhook.cpp:5416-5419 | the bytes that a removal writes are those of the function, but for a zero in front if the code moved has 27 bytes |
| Layouts.CodeRead | dependencies/xhook/xhook.cpp:4532-4539 | the moved code can be read back, and the jump behind it goes through `pbRemain` |
| Layouts.ImageBytes | dependencies/xhook/xhook.cpp:4501-4517 | all bytes of a trampoline at their literal places, for code that leaves room for the jump |
| Trampolines.Pool.Alloc | dependencies/xhook/xhook.cpp:5092-5188 | a trampoline in reach that nobody had, taken from the free ones; null if and only if neither a region's first free one nor that of a new region is in reach; a region more if and only if none had one in reach; all others as before |
| Trampolines.Pool.FindRegion | dependencies/xhook/xhook.cpp:5129-5135 | finds a region whose first free trampoline is in reach if and only if there is one |
| Trampolines.Pool.FreeTrampoline | dependencies/xhook/xhook.cpp:5190-5198 | the trampoline is the first of its region's free ones, all others as before; and one that is free already makes the links of its region go round |
| Trampolines.KnotIsNoChain | dependencies/xhook/xhook.cpp:5190-5198 | links that go round are no free list, however one reads them |
| Trampolines.KnotTied | dependencies/xhook/xhook.cpp:5190-5198 | giving back a trampoline that is on the list makes the links go round |
| Trampolines.Pool.SoundIsValid | dependencies/xhook/xhook.cpp:5190-5198 | every free list can be followed to its end if and only if all regions are in order |
| Trampolines.Pool.NewRegion | dependencies/xhook/xhook.cpp:5160-5180 | a region with all trampolines but the first two on its free list |
| Trampolines.Pool.IsRegionEmpty | dependencies/xhook/xhook.cpp:5200-5222 | true if and only if no trampoline of the region is in use |
| Trampolines.Pool.FreeUnused | dependencies/xhook/xhook.cpp:5224-5241 | releases exactly the regions without a trampoline in use |
| Trampolines.FreeSame | dependencies/xhook/xhook.cpp:5160-5241 | after a region may have been made and unused ones released, the free trampolines are the same if and only if every region was in use, or, where none is released, none was made |
| Trampolines.Pool.FreeIsListed | dependencies/xhook/xhook.cpp:5190-5198 | the free trampolines of a region are just those on its list |
| Trampolines.JumpFits | dependencies/xhook/xhook.cpp:4523-4529 | the five-byte jump to a trampoline in reach fits, at both ends of the address space too |
| Trampolines.Bounds | dependencies/xhook/xhook.cpp:5092-5101 | which addresses are in reach of a target, as distances |
| Trampolines.RegionIsFull | dependencies/xhook/xhook.cpp:4947-4950 | where the trampolines of a region lie, and that no more fit |
| Trampolines.TakeKeeps | dependencies/xhook/xhook.cpp:5123-5125 | taking the head of a free list keeps all lists acyclic, inside their regions and disjoint from the trampolines in use |
| Trampolines.FreeKeeps | dependencies/xhook/xhook.cpp:5195-5197 | giving a live trampoline back keeps every free list acyclic, inside its region and disjoint from the trampolines in use |
| HookSites.CodeDetermined | dependencies/xhook/xhook.cpp:5416-5462 | the code is determined by the hooks that are on and the bytes of the program, whatever was put on and taken off before |
| HookSites.NoHookNoChange | dependencies/xhook/xhook.cpp:5416-5421 | with no hook on, every byte is the program's |
| HookSites.TurnOn | dependencies/xhook/xhook.cpp:5457-5462 | writing one jump turns just that hook on |
| HookSites.TurnOff | dependencies/xhook/xhook.cpp:5416-5421 | writing bytes over one jump turns just that hook off and makes them the program's there |
| HookSites.PointerAfter | dependencies/xhook/xhook.cpp:5430-5461 | after a commit each pointer of an operation has its own new value, and every other pointer the old one |
| HookSites.Written | dependencies/xhook/xhook.cpp:5416-5419 | a removal writes back the bytes of the function, all of them if and only if it is not one that is spoiled |
| HookSites.JumpBytes | dependencies/xhook/xhook.cpp:4523-4546 | the bytes written over a function: a jump that leads 88 bytes into the trampoline, and breaks behind it |
| HookSites.SkipLeads | dependencies/xhook/xhook.cpp:4568-4590 | where a pointer is followed to, for all bytes at it and at the target of a short jump |
| Hooks.Hooks.Begin | dependencies/xhook/xhook.cpp:5297-5317 | one transaction at a time |
| Hooks.Hooks.Attach | dependencies/xhook/xhook.cpp:5697-6035 | no byte and no pointer changes; every error and when it is due, and when it stays with the transaction; on success one operation more, and one trampoline in reach that nobody had; otherwise no operation, no site and no trampoline; which regions there are then |
| Hooks.Hooks.AttachEnds | dependencies/xhook/xhook.cpp:5902-5915 | how an attach ends, by the bytes of the function: too short if and only if it ends before five bytes and some byte up to there, behind it, is no filler |
| Hooks.Hooks.Detach | dependencies/xhook/xhook.cpp:6038-6172 | exactly when it succeeds and every error otherwise, a hook whose removal is pending already included; on success just the list of operations grows |
| Hooks.Hooks.Commit | dependencies/xhook/xhook.cpp:5391-5643 | the bytes, pointers and hooks after it; if a hook was taken off and regions are not retained, just the regions without a hook are released, and otherwise none; all free lists can be followed to their ends if and only if every trampoline that is given back twice is in a region released with it; a transaction with an error changes nothing |
| Hooks.Hooks.DetachTwice | dependencies/xhook/xhook.cpp:5598-5612 | detaching one pointer twice in a transaction succeeds, and the commit leaves a free list without an end if and only if regions are retained or another hook is on in the region |
| Hooks.Hooks.HookLeads | dependencies/xhook/xhook.cpp:5457-5460 | a hooked function starts with a jump into its trampoline, from where a second one goes to the detour |
| Hooks.EntryBytes | dependencies/xhook/xhook.cpp:5457-5459 | the eight bytes of the second jump |
| Hooks.Hooks.HookActs | dependencies/xhook/xhook.cpp:5983-5985 | the pointer leads to code that does what the function's own first bytes did, if and only if each branch and each relative operand among them reaches, and then goes on in the function behind them and the filler that was passed over |
| Hooks.Hooks.Abort | dependencies/xhook/xhook.cpp:5320-5362 | no byte, pointer or region changes and every trampoline taken is given back |
| Hooks.Hooks.CommitAndUndo | dependencies/xhook/xhook.cpp:5391-5643 | committing any hooks and taking them all off restores the trampolines in use, and every byte but the first ones of functions that are spoiled, which are zero: all of them if and only if there is no such function; each pointer leads to where it was followed to, and all are as before if and only if none led to a jump; which regions are released |
| Hooks.Hooks.HookAndUnhook | dependencies/xhook/xhook.cpp:5297-6172 | begin, attach, commit, begin, detach, commit: every byte is restored if and only if the function is not spoiled, the pointer if and only if it was not followed, and the free trampolines if and only if every region was in use, or, with regions retained, if none had to be made; the trampolines in use always; an attach that fails leaves bytes and pointers as they were |
| HookSites.ShortJumpFollowed | dependencies/xhook/xhook.cpp:4568-4590 | a pointer to a short jump is followed, so that it is one that is not restored |
| Atoms.RoundTrip | actorx/detail/atom_val.hpp:45-66 | decoding gives the string back if and only if it is made of digits, letters and underscores, blanks not in front allowed |
| Atoms.DecodeEncode | actorx/detail/atom_val.hpp:45-66 | what decoding gives for every string: blanks for strange characters, none in front, nothing behind a null |
| Atoms.Injective | actorx/atom.hpp:20-27 | two strings make one atom if and only if the same is kept of both |
| Atoms.DistinctStrings | actorx/atom.hpp:20-27 | distinct strings of digits, letters and underscores, blanks not in front allowed, make distinct atoms |
| Atoms.Order | actorx/detail/atom_val.hpp:22-37 | strings of one length, of digits, letters and underscores, compare as their atoms do |
| Atoms.Range | actorx/atom.hpp:20-41 | ten characters never overflow 64 bits; eleven, which the run-time conversion lets through, do if and only if the first is '6' or a later character that has a code |
| Atoms.Decode | actorx/detail/atom_val.hpp:53-67 | the loop stays inside its buffer for every number of 64 bits, gives the name of each that is not negative, and leaves the table for all others |
| Atoms.NameOfAtom | actorx/atom.hpp:43-47 | a number has a name if and only if it is an atom's smallest value or above, which -1 is not |
| Atoms.Tables | actorx/detail/atom_val.hpp:36-37 | the decoding table is the string of 64 characters, and the encoding table its inverse |
| Atoms.CodeIsPositive | actorx/detail/atom_val.hpp:22-33 | just digits, letters and the underscore have a code of their own |

## Left out

- EventServiceProofs.AccountingIdentity: one worker for each thread, the default; for more of them the turn of a thread is modelled alone (`Turns.Sweep`), and one thread with its workers (`SeveralWorkers.SleepsOnWork`).
- EventServiceProofs.NotifierProgress: bounds the steps to the signal; that a scheduler lets the caller make them is not modelled.
- Progress.PostIsHandled: one schedule, the producer and then the owner; that a scheduler lets each of them go on is not modelled.
- LockFreeProofs.LockFreeFifo: memory orders weaker than sequential consistency are not modelled, because a step of the machine is seen by all at once.
- Coroutine.NeverEnteredTwice: one life from `make_context` to the release; a context of the pool used again is not modelled, since its body has no loop.
- CowBuffers.Store.Perform: handles and blocks are numbered entries of a store that its methods reassign, and not objects of their own, so that aliasing is by number.
- CowBuffers.Store.Resize: new bytes are arbitrary, as are those of a block of the pool; the pool gives a block nobody uses, and how it recycles blocks is not modelled.
- Records.ExitLength: sizes that do not fit a 32-bit integer are excluded, because the size is computed in one.
- Messages.MessageStore.Perform: the type and the sender of a message, and the shared pointers beside its bytes, are not modelled.
- WireStream.ZeroCopyBuffer.Append: the span of a buffer is copied into the stream and back; that it is one memory is not captured.
- Relocation.X64Lawful: which entry an opcode has is a parameter that obeys four laws, among them that an instruction has fifteen bytes at most, as the processor demands; branches with a prefix, loop instructions and the jump on a zero counter are not modelled.
- Relocation.CXHookDis.CopyInstruction: dispatches to branches and to one entry for all else; which entry that is is the same parameter.
- Relocation.KeepsTarget: branches with a prefix, loop instructions and the jump on a zero counter, as above.
- Atoms.NameOfAtom: numbers so low that the difference is not one of 64 bits, for which the code has no defined result.
- Hooks.Hooks.Attach: a function or a pointer that has a hook, or is about to have one, is excluded, as the hooks are to be disjoint; import tables are not followed, page protection is a parameter that says whether it can be changed, and suspended threads are not modelled.
- Hooks.Hooks.Detach: a pointer that has no hook is excluded: the program takes whatever bytes it leads to for a trampoline.
- Trampolines.Pool.Alloc: the search for free memory is a parameter, any region of user space where nothing is.
- Trampolines.Pool.NewRegion: the slots before the first one given out stay unused, as in the code.
- Hooks.Hooks.HookAndUnhook: a detour that is found by reading the bytes that the jump takes the place of.
- Turns.EventWorker.Work: no event arrives meanwhile; arrivals are part of the machine of the event service.
- Timed waits, clocks, thread start and exit handlers, exceptions of handlers, logging and assertions.
- Counters and indices have no upper bound; the library uses machine words that no run fills.
- Affix lists of coroutines, stack switching, fibers, signal handling, the actor layer and the Lua bindings.
- Floating-point and fixed-size fields of the wire format, containers, and the other stream types.
- Hooks on other processors, editing of import tables, process injection and symbol lookup.
