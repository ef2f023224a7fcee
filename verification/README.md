# Byte stream to datagram pipeline: a verified model

The server moves bytes from a socket to datagrams in a queue and back.  Three
stateful parts do the work: a frame parser that finds datagrams in a byte stream, a
ring queue with decorators that lock, block and time out, and a connection worker
with one thread that reads and one that writes.  This project models the three,
proves what each does on every input and in every interleaving, and composes them.

| file | contents |
|---|---|
| `Bytes.dfy`, `Runs.dfy` | byte strings; transition systems, runs, inductive properties |
| `Frames.dfy` | header layout, encoder, and `Parse`, the recursive reading of a whole stream |
| `StreamLaws.dfy`, `Recovery.dfy` | laws of `Parse`: chunks, decomposition, fault, round trip, garbage |
| `ParserExample.dfy` | the parser class with its loop and states, and the encoder method |
| `Fifo.dfy`, `RingWindow.dfy` | the bounded queue as a specification; the occupied stretch of a ring |
| `RingQueue.dfy` | the ring queue class with its reusable cells |
| `SyncChain.dfy` | how decorators come to share a mutex and conditions |
| `Monitor.dfy`, `MonitorCalls.dfy` | blocking and timed decorators around one ring, any number of threads; their calls from start to answer |
| `LockFree.dfy`, `LockFreeProgress.dfy` | the stack the program builds: locked producers, one consumer without a lock; when its calls return |
| `LostNotice.dfy` | the wakeups of that stack, whose consumer notifies without the mutex |
| `Worker.dfy`, `WorkerLaws.dfy` | the connection worker: its steps, and what every run keeps |
| `WorkerEnds.dfy`, `WorkerLate.dfy` | when a worker comes to its end, and what it still does on the way |
| `WorkerProgress.dfy`, `WorkerTheorems.dfy` | what a worker sends; what it delivers |
| `Pipeline.dfy`, `PipelineRuns.dfy` | the worker with its read queue in the ring's own statements |

Sequential code that updates objects is a class with methods proved against a
specification function.  Threads are transition systems: one action per statement
that touches shared state, sequentially consistent, and the theorems hold in every
state some trace of actions reaches.  The parts fit together through `Fifo`: the ring
class computes it call by call, `LockFree.Refines` shows that the interleaved
statements of the ring amount to it, and the worker uses it for its queues.  For the
read queue the last step is a theorem too: `PipelineRuns.SmallStepsIff` runs worker
and ring statement by statement and reaches exactly the states the worker's model does,
so safety and reachability theorems about the one hold of the other.

## Where the code departs from its evident intent

The model follows the code and says exactly when that matters.

* The header check compares the size field with `sizeof(head)`, the size of a
  pointer (`src/parsers/ParserExample.cpp:58`), where the header's size, 12, is meant.
  The value compared with is a parameter `k` here (`POINTER_SIZE`, 8, in the code).
  A size field of `k` to 11 makes the copy at line 74 run from offset 12 backwards,
  which C++ leaves undefined; the model stops there with a fault, and with it the
  worker's whole process.  `FaultExactly` says
  which streams reach it, `AgreeExactly` that on all others the check is as good as
  the one with 12, and `OnlyTwelve` that 12 is the one value that never faults and
  still returns every payload.
* `RingQueue` declares its own `m_total_count` (`src/containers/RingQueue.h:86`),
  hiding the one `capacity()` reads (`src/containers/QueueBase.cpp:18-20`), which stays
  0.  What `capacity()` answers is a parameter `reported`.  A blocking put gets past
  its wait if and only if `reported > 0` (`Monitor.BlockingPutReturnsIff`), so as
  coded no blocking put ever returns.  `WorkerEnds.StopReachesCallbackIff` says
  exactly which workers a stop can still bring to their callback,
  `StopAlwaysReachesCallbackIff` that for those the callback stays within reach on
  every run, and `WorkerTheorems.NoRoomHangs` that as coded a worker that has parsed a
  datagram is not among them.  All safety theorems hold for every value of `reported`.
* `NoBlockRead` takes no mutex, so the consumer can empty the queue and give all its
  notices between a producer's size test and its wait.  The producer then sleeps beside
  an empty queue, and the consumer's loop, which tests the size before it calls `get`
  (`src/subprocesses/abstract_subprocess/AbstractSubprocess.cpp:55`), gives no further
  notice.  With one producer it can sleep so if and only if the wait has no time limit
  and no more room is reported than there are cells (`LostNotice.StuckIff`): an answer
  other than 0 from `capacity()` alone does not remove it.
* A put into a queue whose `capacity()` answers 0 never returns from the stack the
  program builds unless its wait has a time limit (`LockFreeProgress.PutReturnsIff`).
* `set_syncs` reaches one decorator down only, so a chain shares its mutex if and only
  if it has at most two decorators (`SyncChain.OneSyncIff`); the program builds two.
* A blocking `peek` sleeps on the condition of `get` and passes no notice on.  A
  deadlock needs as many notices swallowed that way as there is room, and that many
  are enough (`Monitor.DeadlockNeedsPeeks`, `Monitor.PeekDeadlock`).  In terms of the
  configuration: threads that may peek can deadlock if and only if the reported room
  fits the ring and there are two threads more than that (`Monitor.DeadlockIff`), and
  then also with every thread asleep (`Monitor.CompleteDeadlockIff`);
  threads that never peek, if and only if no room is reported and there are two of
  them (`Monitor.PeeklessDeadlockIff`).
* The write thread takes an empty element for an empty queue; such an element stays
  at the front for good (`WorkerTheorems.EmptyFrontStays`).  While the thread is in
  its loop the next element can go out if and only if it is not empty
  (`WorkerProgress.NextElementSentIff`).

## How a worker ends

Each thread leaves its loop when stop is asked, when its own read or send fails, or
when it sees that the other has gone; the guard joins both and calls back.
`WorkerEnds.EndsIff` puts this in one condition: from any state of any run, with no
further stop or failure, the callback can be reached if and only if something has ended
the worker and its read thread is not lost, that is, has not crashed, is not in a put
that never finds room, and holds no chunk that takes it to either past its last look at
the flags.  `StopEndsWorkerIff`, `OneThreadEndsWorkerIff`, `FailedReadEndsWorker` and
`FailedSendEndsWorkerIff` are the cases by cause; `WorkerLate` counts what is still done.

## Model

| member | source | states |
|---|---|---|
| Frames.HeadRoundTrip | src/parsers/ParserExample.h:12-24 | the header read back from its twelve little-endian bytes is the header written, whatever follows |
| Frames.FirstByteDecides | src/parsers/ParserExample.cpp:48-53 | the early test of one byte rejects only streams the full header check rejects |
| Frames.GoodHeadBytes | src/parsers/ParserExample.cpp:47-64 | a header passes if and only if there are twelve bytes, the first four are 0xff and bytes 8 and 9, low byte first, are at least the size compared with; type, version and reserved field are free |
| Frames.EncodeBytes | src/parsers/ParserExample.cpp:86-105 | the encoded frame byte by byte: marker, type 1, version 1, whole length low byte first, reserved 0, payload; nothing for a payload over 65523 bytes |
| StreamLaws.ParseSplit | src/parsers/ParserExample.cpp:8-17 | a stream cut in two, residue carried over, yields the datagrams, residue and fault of the whole |
| StreamLaws.FeedIsParse | src/parsers/ParserExample.cpp:8-45 | any number of calls with any chunks, empty ones included, adds up to one parse of all bytes |
| StreamLaws.ParsePrefix | src/parsers/ParserExample.cpp:8-45 | datagrams of a prefix of the stream are a prefix of the datagrams of the stream; a fault is final |
| StreamLaws.ParseResidue | src/parsers/ParserExample.cpp:66-77 | what is kept hides neither a droppable byte nor a complete frame at its front, and is under 65535 bytes unless faulted |
| StreamLaws.JustifiedIff | src/parsers/ParserExample.cpp:47-64 | a dropped byte or datagram is justified by the stream alone exactly when it is the one the parser takes |
| StreamLaws.DecompositionUnique | src/parsers/ParserExample.cpp:19-84 | every stream has exactly one split into justified drops, well-formed datagrams and a stuck rest, and it is the parser's |
| StreamLaws.ParseAccounts | src/parsers/ParserExample.cpp:37-41 | drops, datagrams and residue make up the input; every datagram has marker and a size field equal to its length, 12 to 65535 |
| StreamLaws.FrameBytes | src/parsers/ParserExample.h:12-24 | a well-formed datagram is 12 to 65535 bytes that start with four of 0xff and give their own number in bytes 8 and 9, whatever the others are |
| StreamLaws.RangeWellFormedIff | src/parsers/ParserExample.cpp:58-74 | the copy range is well formed on all streams if and only if the check lets through no size under 12 |
| StreamLaws.PointerSizeFaults | src/parsers/ParserExample.cpp:58 | a concrete header of size 8 that the check with the pointer's size accepts and that faults |
| StreamLaws.FaultExactly | src/parsers/ParserExample.cpp:58-74 | the code faults if and only if the parser with 12 would drop, at a piece boundary, a byte starting a header of size k to 11 |
| StreamLaws.AgreeExactly | src/parsers/ParserExample.cpp:58 | the code does not fault if and only if it gives the parse of the parser with 12 |
| Recovery.EncodeWellFormed | src/parsers/ParserExample.cpp:86-105 | an encoded payload is a well-formed datagram twelve bytes longer that ends in the payload |
| Recovery.FrameTaken | src/parsers/ParserExample.cpp:66-84 | a well-formed frame at the front is taken whole, markers inside it and bytes behind it notwithstanding |
| Recovery.TakenIffFrame | src/parsers/ParserExample.cpp:66-84 | more than one byte is taken from the front as one datagram if and only if those bytes are a frame, byte by byte, whatever follows |
| Recovery.OtherTypeFound | src/parsers/main.cpp:8-37 | the example stream, garbage 0 to 9 and a frame of type 33, version 4 and size 56, yields that frame and nothing else |
| Recovery.RoundTrip | src/parsers/ParserExample.cpp:86-105 | parsing all encoded payloads gives back, in order, the frames of those that fit, headers included, and with them the payloads; no residue is left, and the others were encoded to nothing |
| Recovery.RoundTripIff | src/parsers/ParserExample.cpp:58 | every payload list comes back if and only if the check lets size 12 through |
| Recovery.OnlyTwelve | src/parsers/ParserExample.cpp:58 | 12 is the only value in the check that never faults and loses no payload |
| Recovery.ResyncIff | src/parsers/ParserExample.cpp:37-41 | frames between garbage are found where they stand, all garbage dropped, if and only if no garbage offset passes the header check; then exactly the frames come out and under 12 bytes stay |
| Recovery.PlainGarbageIsClean | src/parsers/main.cpp:11-37 | garbage without the byte 0xff never passes the header check, before, between or after frames |
| ParserExample.Parser.constructor | src/parsers/ParserExample.cpp:3-6 | a fresh parser has read nothing and handed out nothing |
| ParserExample.Parser.Put | src/parsers/ParserExample.cpp:8-17 | returns the datagrams of old buffer plus chunk, each a frame byte by byte, and keeps their residue; over all calls output is the parse of all input; between calls the state is NoData with under 12 bytes or ReceivingData with a checked saved header; turns are at most 3 per byte taken plus 4 |
| ParserExample.Parser.ParseData | src/parsers/ParserExample.cpp:19-45 | the six-state loop terminates and computes the parse of the buffer, with at most 3 turns a drop, 4 a datagram, and 4 |
| ParserExample.Parser.HandleHeader | src/parsers/ParserExample.cpp:47-64 | ends in ReceivingData with the header saved exactly when the first four bytes are 0xff and the size in bytes 8 and 9 is at least the value compared with |
| ParserExample.Parser.HandleData | src/parsers/ParserExample.cpp:66-77 | waits, completes the datagram, or faults, by the front of the buffer |
| ParserExample.Parser.HandleComplete | src/parsers/ParserExample.cpp:79-84 | hands out the datagram and takes exactly its bytes off the buffer |
| ParserExample.PrepareDataForSending | src/parsers/ParserExample.cpp:86-105 | the buffer filled step by step is the encoded frame, given byte by byte, or empty when the payload does not fit |
| Fifo.ReplayIsRest | src/containers/RingQueue.cpp:21-57 | after any history the queue holds what was accepted and not taken, never more than its capacity |
| Fifo.FifoLaw | src/containers/QueueBase.h:18-25 | replies are those of a bounded queue if and only if the n-th successful get yields the n-th accepted item, cut to the caller's room, and calls are refused only when full or empty |
| Fifo.ReadYields | src/containers/RingQueue.cpp:35-57 | a successful get or peek copies the first accepted item not yet taken, byte by byte from its first, as many as there are and there is room for |
| Fifo.ZeroMeansFull | src/connections/workers/ConnectionWorker.cpp:54-62 | a put of a non-empty item returns 0 exactly when the queue was full, and exactly then changes nothing |
| RingWindow.Push | src/containers/RingQueue.cpp:23-28 | writing the cell at the in-index and stepping it around the ring appends to the queue |
| RingWindow.Pop | src/containers/RingQueue.cpp:37-43 | the cell at the out-index holds the front item; clearing it and stepping the out-index removes that item |
| RingWindow.EndsApart | src/containers/RingQueue.cpp:23-42 | with some but not all cells taken the in-index differs from the out-index |
| RingQueue.Bag.constructor | src/containers/RingQueue.h:42-48 | a cell starts empty with the given room |
| RingQueue.Bag.Put | src/containers/RingQueue.h:49-56 | the cell holds exactly the bytes put, grown if needed and never shrunk |
| RingQueue.Bag.Get | src/containers/RingQueue.h:57-67 | copies out the first bytes that fit, touches no byte behind them, frees the cell |
| RingQueue.Bag.Peek | src/containers/RingQueue.h:68-76 | the same copy, the cell left as it is |
| RingQueue.RingQueue.constructor | src/containers/RingQueue.cpp:8-19 | a ring of any number of cells, none included, starts as the empty queue |
| RingQueue.RingQueue.Capacity | src/containers/QueueBase.cpp:18-20 | answers 0 for every ring |
| RingQueue.RingQueue.Put | src/containers/RingQueue.cpp:21-33 | contents, return value and status are the bounded queue's; the history of calls stays a legal one |
| RingQueue.RingQueue.Get | src/containers/RingQueue.cpp:35-47 | contents, copied bytes, return value and status are the bounded queue's; stale bytes of reused cells never show |
| RingQueue.RingQueue.Peek | src/containers/RingQueue.cpp:49-57 | replies as the bounded queue and changes nothing in it |
| SyncChain.Decorator.constructor | src/containers/RingQueueBlockDecorators.cpp:4-23 | makes new syncs and shares them with the decorator it wraps |
| SyncChain.Decorator.SetSyncs | src/containers/RingQueueBlockDecorators.h:32-38 | takes over the three given syncs, each in its own place |
| SyncChain.Wrap | src/containers/RingQueueBlockDecorators.cpp:4-23 | after one more wrapping the chain is nested one deeper and exactly the decorators with the same owner share their syncs |
| SyncChain.OneSyncIff | src/containers/RingQueueBlockDecorators.h:32-38 | all decorators of a chain built by wrapping share mutex and both conditions if and only if there are at most two |
| Monitor.LinearStep | src/containers/RingQueueBlockDecorators.cpp:80-102 | every step keeps the history of replies that of a bounded queue |
| Monitor.WakeupStep | src/containers/RingQueueBlockDecorators.cpp:37-55 | every step keeps each sleeper, in a put, get or peek, covered by a thread or notice under way, or its notice went to a peek; items pile up beside a sleeping reader only as threads are left over |
| Monitor.Linearisable | src/containers/RingQueueBlockDecorators.cpp:80-109 | for all threads and interleavings replies are first in, first out; puts accepted are gets answered plus queue; no blocking get or peek is told the queue is empty |
| Monitor.NeverRefusedIff | src/containers/RingQueueBlockDecorators.cpp:80-86 | no blocking put is ever told the queue is full if and only if no more room is reported than there are cells |
| Monitor.BlockingPutReturnsIff | src/containers/RingQueueBlockDecorators.cpp:37-40 | some blocking put gets past its wait if and only if some room is reported |
| Monitor.AwakeMoves | src/containers/RingQueueBlockDecorators.cpp:80-128 | some thread can move by itself if and only if one is neither outside nor asleep |
| Monitor.SleepersHaveReason | src/containers/RingQueueBlockDecorators.cpp:37-55 | when nobody can move, a sleeping get or peek has no item but those whose notice a peek took, at most two fewer than the threads, and a sleeping put has no room |
| Monitor.DeadlockIff | src/containers/RingQueueBlockDecorators.cpp:37-109 | some run ends with a reader and a putter asleep and nobody able to move if and only if the reported room fits the ring and leaves two threads over, whether the reader is to be a getter or not |
| Monitor.CompleteDeadlockIff | src/containers/RingQueueBlockDecorators.cpp:37-109 | under the same condition and no other some run ends with every thread of the program asleep, a reader and a putter among them, so that no call from outside can help |
| Monitor.DeadlockNeedsThreads | src/containers/RingQueueBlockDecorators.cpp:104-109 | a deadlock takes two threads more than the room reported |
| Monitor.PeeklessDeadlockIff | src/containers/RingQueueBlockDecorators.cpp:80-102 | threads that only put and get can deadlock if and only if no room is reported and there are two of them |
| Monitor.DeadlockFreeIff | src/containers/RingQueueBlockDecorators.cpp:37-102 | without notices taken by peeks, a getter and a putter are never both stuck if and only if some room is reported |
| Monitor.DeadlockNeedsPeeks | src/containers/RingQueueBlockDecorators.cpp:104-109 | a deadlock takes at least as many notices swallowed by peeks as room reported |
| Monitor.PeekDeadlock | src/containers/RingQueueBlockDecorators.cpp:104-109 | with that many swallowed a deadlock is reached, for every reported room that fits and two threads more |
| MonitorCalls.CallsKept | src/containers/RingQueueBlockDecorators.cpp:80-150 | the call a thread begins is the call the queue carries out and answers for it, through lock, wait and wakeup; nothing else is logged |
| MonitorCalls.TimedWaitsOnce | src/containers/RingQueueBlockDecorators.cpp:47-55 | a timed call back from its wait never sleeps again and is answered at its check, full or empty included |
| MonitorCalls.WaitsForRoomOrItem | src/containers/RingQueueBlockDecorators.cpp:37-55 | any other check lets a put or a read through if and only if room is reported or an item is there, and else sleeps and gives up the mutex |
| MonitorCalls.TimedCallReturns | src/containers/RingQueueBlockDecorators.cpp:122-150 | from every state of every run a timed call can be answered without anybody starting another call |
| LockFree.CellsApart | src/containers/RingQueue.cpp:21-47 | in no reachable state are producer and consumer at the same cell or outside the ring |
| LockFree.NeverStuckInside | src/containers/RingQueue.cpp:24-38 | a call once begun always has a next statement; no cell access is out of range |
| LockFree.Linearisable | src/subprocesses/abstract_subprocess/AbstractSubprocess.cpp:13-37 | for all interleavings of statements the replies really given are those of one bounded queue, first in, first out |
| LockFree.Refines | src/containers/RingQueue.cpp:21-57 | every statement is the bounded queue carrying out the call in progress, answered as it answers, or changes nothing in it |
| LockFree.CellsReleased | src/containers/RingQueue.cpp:39-42 | giving the front cell back leaves every other cell in its place in the queue, a half-written one included |
| LockFree.PublishesIff | src/containers/RingQueueBlockDecorators.cpp:37-50 | something can be published if and only if there is a cell, and room reported or a wait that ends by time |
| LockFreeProgress.CallsKept | src/containers/RingQueueBlockDecorators.cpp:80-86 | a thread's put keeps its item through sleep and return, and a get or peek stays what it was, until a statement of its own is logged with just that call; nothing else is logged |
| LockFreeProgress.PutSleepsIff | src/containers/RingQueueBlockDecorators.cpp:37-50 | a put goes to sleep if and only if no room is reported, and once only if its wait has a time limit |
| LockFreeProgress.PutReturnsIff | src/containers/RingQueueBlockDecorators.cpp:80-86 | from every state of every run a put begun, asleep or not, can return if and only if some room is reported or its wait has a time limit |
| LostNotice.StuckIff | src/containers/RingQueueBlockDecorators.cpp:37-40 | the producer can sleep with nothing left that must happen if and only if its wait has no time limit and no more room is reported than there are cells; beside reported room, if and only if some is reported besides |
| LostNotice.StuckBesideEmpty | src/containers/RingQueueBlockDecorators.cpp:172-176 | a producer stuck so sleeps beside an empty queue, the consumer back at its size test |
| LostNotice.Drain | src/subprocesses/abstract_subprocess/AbstractSubprocess.cpp:48-66 | while the producer is between size test and wait the consumer can empty the queue and give all its notices to nobody |
| LostNotice.BothGoOn | src/containers/RingQueueBlockDecorators.cpp:80-86 | the producer can begin any put and go on with it unless it is asleep, and the consumer always has a next statement |
| LostNotice.NoticeComesIff | src/containers/RingQueueBlockDecorators.cpp:172-176 | a sleeping producer is woken by a notice on some run if and only if the consumer is not back at its size test beside an empty queue; its put then returns if and only if besides some room is reported or its wait has a time limit |
| WorkerLaws.PuttingAccounted | src/connections/workers/ConnectionWorker.cpp:52-66 | a repeated put queues each parsed datagram once and in order |
| WorkerLaws.ParsingAccounted | src/connections/workers/ConnectionWorker.cpp:49-52 | a chunk's datagrams join the account exactly behind those of the bytes before |
| WorkerTheorems.Delivery | src/connections/workers/ConnectionWorker.cpp:38-77 | datagrams of all bytes parsed are delivered, queued, pending or given up, in that order; none is given up before stop or the write thread's end; every byte read is parsed or in hand until the thread leaves |
| WorkerTheorems.EndToEnd | src/connections/workers/ConnectionWorker.cpp:33-77 | while the source gives what an encoder sent, the consumer gets a prefix of the payloads and the thread never faults; once all is parsed no payload is missing or doubled |
| WorkerTheorems.WritePump | src/connections/workers/ConnectionWorker.cpp:81-108 | written plus queued is what was enqueued; the element dropped is the one peeked and sent, and a failed send drops nothing |
| WorkerTheorems.EmptyFrontStays | src/connections/workers/ConnectionWorker.cpp:83-93 | an empty element at the front is never sent or dropped |
| WorkerLate.LateWork | src/connections/workers/ConnectionWorker.cpp:38-108 | on any run after a stop the read thread executes at most nine statements and the write thread five, one more datagram is queued and one more element sent at most, and only past the last look at the flag; sends answered 0 not counted |
| WorkerLate.LateWorkAfterHangup | src/connections/workers/ConnectionWorker.cpp:38-108 | on any run after the write thread has gone the read thread executes at most seven statements and queues one more datagram; after the read thread has gone the write thread executes at most five and sends one more element |
| WorkerTheorems.CallbackOnceAtEnd | src/connections/workers/ConnectionWorker.cpp:112-120 | the callback runs at most once, only after both threads have ended and both alive flags are down |
| WorkerEnds.EndsIff | src/connections/workers/ConnectionWorker.cpp:38-120 | from every state of every run, with no further stop or failure, the callback can be reached if and only if a stop, a failure or a missing queue has ended the worker and its read thread is not lost |
| WorkerEnds.EndsAlwaysIff | src/connections/workers/ConnectionWorker.cpp:38-120 | once the read thread has a reason to leave, every run whatever can be continued to the callback if and only if it is not lost |
| WorkerEnds.StopEndsWorkerIff | src/connections/workers/ConnectionWorker.cpp:151-153 | a stop can be asked at any moment, sets its flag and nothing else, and then every run can be continued to the callback if and only if the read thread was not doomed |
| WorkerEnds.OneThreadEndsWorkerIff | src/connections/workers/ConnectionWorker.cpp:81-118 | once either thread has gone, without any stop, every run can be continued to the callback if and only if the read thread is not lost, which it is not if it is the one gone |
| WorkerEnds.FailedReadEndsWorker | src/connections/workers/ConnectionWorker.cpp:39-44 | after a negative answer of the source nothing more is parsed, the thread only leaves, and every run can be continued to the callback |
| WorkerEnds.FailedSendEndsWorkerIff | src/connections/workers/ConnectionWorker.cpp:99-109 | after a negative answer of the sink nothing more is sent, no queued element is dropped, and the callback can be reached if and only if the read thread is not lost |
| WorkerEnds.StopReachesCallbackIff | src/connections/workers/ConnectionWorker.cpp:38-120 | once stop is asked some run reaches the callback if and only if the read thread has not crashed, is not about to in the parser, and is not in or about to enter a put that never finds room |
| WorkerEnds.StopAlwaysReachesCallbackIff | src/connections/workers/ConnectionWorker.cpp:38-120 | once stop is asked every run can be continued to the callback if and only if that same condition holds; a put with room may always go on here |
| WorkerEnds.DoomedForGood | src/connections/workers/ConnectionWorker.cpp:49-66 | a read thread in one of these states stays in one and the callback is reached on no run |
| WorkerProgress.NextElementSentIff | src/connections/workers/ConnectionWorker.cpp:81-108 | while the write thread is in its loop the first element not yet sent is sent on some run if and only if it is not empty; if it is empty no run sends anything |
| WorkerProgress.EnqueueAccepts | src/containers/RingQueue.cpp:23-32 | a producer's put comes at any moment, changes nothing but the write queue, and is accepted as the last element if and only if the queue is not full |
| WorkerProgress.AnyAnswer | src/connections/workers/ConnectionWorker.cpp:93-107 | source and sink may answer anything; a send answered 0 is repeated, one answered positive is written and dropped next |
| WorkerProgress.WritesIff | src/connections/workers/ConnectionWorker.cpp:79-110 | something put for sending can go out, and every list of non-empty elements can be written whole and in order, if and only if there is a write queue and it has a cell |
| WorkerTheorems.QuietAtEnd | src/connections/workers/ConnectionWorker.cpp:112-120 | once both threads have ended nothing more is parsed, sent or lost |
| WorkerTheorems.ReaderHeldUpIff | src/connections/workers/ConnectionWorker.cpp:38-77 | apart from its read, the read thread is held up if and only if it blocks in a put into a queue reported full; a put is one step here, its sleep included, so a notice lost before the wait is not seen (that is `LostNotice.StuckIff`) |
| WorkerTheorems.NoRoomHangs | src/connections/workers/ConnectionWorker.cpp:54-55 | with no room reported and a blocking put, from the first datagram parsed on every run stays in that put, delivers nothing and never reaches the callback |
| WorkerTheorems.DeliversIff | src/subprocesses/abstract_subprocess/AbstractSubprocess.cpp:13-24 | a datagram can reach the consumer, every list of payloads can be delivered whole, and so can all datagrams of every stream without a faulting header, in whatever reads it comes, if and only if the queue has a cell, and room reported or a put that does not wait for it |
| Pipeline.SmallStepsRefine | src/connections/workers/ConnectionWorker.cpp:52-66 | with the queue calls spread over the ring's own statements the worker reaches no state its model does not, and the ring sees one consumer and one put at a time |
| PipelineRuns.SmallStepsIff | src/connections/workers/ConnectionWorker.cpp:52-66 | the worker's model and the worker with the ring's statements reach the same states, each of them with no queue call under way |
| PipelineRuns.FinishPut | src/containers/RingQueue.cpp:21-33 | a put past its wait can be run to its end, and ends in the state the worker's one-step put gives |
| PipelineRuns.FinishGet | src/containers/RingQueue.cpp:35-47 | a get begun can be run to its end, and ends in the state the worker's one-step get gives, an empty queue included |
| PipelineRuns.DeliversThroughRingIff | src/subprocesses/abstract_subprocess/AbstractSubprocess.cpp:13-66 | the same, payload lists and whole streams, through the ring's own statements and under the same condition |
| Pipeline.PutSimulates | src/containers/RingQueue.cpp:21-33 | the statement at which a put takes effect is the worker's one-step put, with the value the ring returns |
| Pipeline.GetSimulates | src/subprocesses/abstract_subprocess/AbstractSubprocess.cpp:57-66 | the statement at which the consumer's get takes effect delivers the bytes the ring copied out |
| Pipeline.CallsGoOn | src/containers/RingQueue.cpp:21-47 | a queue call begun has a next statement, and one that is due can begin |
| Pipeline.EndToEndThroughRing | src/subprocesses/abstract_subprocess/AbstractSubprocess.cpp:13-66 | through the ring's interleaved statements payloads sent are delivered in order, none missing or doubled, with reader and consumer never at the same cell |

## Left out

- Sockets, epoll, accept threads, socket options, error codes and address formatting: reading and writing are oracles that answer negative, zero or positive.
- Partial sends of the TCP socket: a send that answers 0 midway starts the buffer again (`src/connections/network/TCPSocket.cpp:64-78`); the sink here takes an element whole or not at all, as the datagram socket does.
- The write queue in small steps: the worker's write thread uses the one-step queue, whose small steps `LockFree` refines; that the two fit together is proved for the read queue only.
- Decorators and worker are transition systems over values, not classes, because their threads interleave; aliasing of buffers between threads is not modelled beyond the ring's cells.
- More than one consumer without a lock: `NoBlockRead` takes no mutex, and the program has one consumer per queue.
- Memory weaker than sequential consistency; the atomic size and flags use the default, strongest order.
- The status field in the concurrent models: a plain field both sides write; it is part of the sequential ring and of every reply.
- Wall-clock time: a timed wait may end at any moment, and sleeps and yields are steps that change nothing.
- The worker without a parser, which ignores what its put returns (`src/connections/workers/ConnectionWorker.cpp:72-74`).
- Wakeups of several producers, or of blocking readers, through the decorators that do not block: `LostNotice` has one producing and one consuming thread; otherwise only first-in-first-out order is claimed.
- Whether the loop that repeats a send ends: it depends on the sink answering something other than 0.
- Wrap-around of the 64-bit byte counters and the per-interval counters that a statistics request resets.
- Starting a worker twice, deleting it from inside its callback, logging, `main` functions, build files and the two example subprocesses.
- Hosts that are not little-endian, and headers the compiler would pad; the model has the packed little-endian layout.
