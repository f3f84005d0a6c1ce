# QDaemon core: a verified model

QDaemon is a C framework for daemons. This project models the parts of it whose correctness
rests on invariants rather than on I/O, and proves what they promise:

- **Thread pool** (`WorkStealingDeque`, `MpmcRing`, `WorkQueue`, `PoolAccounting`): the Chase-Lev
  deque, the bounded multi-producer multi-consumer ring, the priority lists, and the count of
  pending tasks.
- **Red-black tree** (`RbShape`, `RbPointers`, `RbInsert`, `RbErase`, `RbWalk`): the intrusive
  tree with parent pointers, on heap nodes whose fields the rotations and fixup loops rewrite.
- **Timer wheel** (`TimerWheel`, `IntrusiveList`): four levels of 256 slots against a plain bag of
  deadlines, and the circular list with its splice.
- **Channel and shared-memory ring** (`MpscChannel`, `ShmRing`): two protocols whose sides act on
  stale positions.
- **Allocators** (`SlabCache`, `Arena`, with `Alignment`).
- **Formats with an inverse**: C expressions (`CintExpr`, `CintParser`, `CintRoundTrip`,
  `CintStandard`), INI
  text (`IniText`, `IniConfig`), IPC messages and their reassembly (`IpcFrame`, `IpcStream`).
- **Locks** (`RwLock`, `SeqLock`).
- `RingIndex` and `Basics` hold slot arithmetic and small definitions the others share.

How concurrency is modelled: a state holds the shared memory and where each thread stands. One
atomic access, or one plain access to shared data, is one step. `Exec` runs an arbitrary list of
actions from the initial state, so a theorem about `Exec(Init(..), actions)` holds for every
interleaving of any number of threads. Some state fields are history: no step looks at them.
Beside what every interleaving keeps, each machine has theorems about a call left alone: from any
state its invariant allows, with the thread anywhere inside the call, it is through within a stated
number of steps, and what it has done then is given exactly.

How objects are modelled: a class with the fields the C structure has, `modifies` clauses for what
a call may change, a `Valid()` predicate, and contracts that tie the new state to a function of the
old one. Linked lists are sequences, except in `IntrusiveList`; the red-black tree keeps its pointers.

Assumptions:

- Memory is sequentially consistent; the memory orders in the code are taken to be enough for that.
- Positions, ticks and counters are unbounded, except that the sequence of `SeqLock` is the 32-bit
  number it is, and the full test of `MpscChannel` keeps its unsigned difference.
- There is one pool, so a worker's thread-local number names a worker of that pool and only the
  owner pushes to and pops from a deque.
- The results about `TimerWheel` are about a repaired splice, one that leaves its source empty.
  `qd_list_splice` (src/util/qd_list.h:144-149) does not reset the source head, yet the cascade and
  the expiry hand-off of the timer wheel go on as if it did. What the splice as written does to
  those two places is proved in `IntrusiveList`, on the pointers.
- An alignment is a power of two; exactly then the mask of `QD_ALIGN` rounds up to a multiple of it
  (`Alignment.MaskAlignsExactly`).
- Fresh memory (pages for a slab, a block for an arena) overlaps nothing in use.

Properties that turned out not to hold as one would like them are stated with the exact condition:

- the ring is safe exactly from capacity 2 on (`MpmcRing.SafeExactlyFromTwo`);
- a sender may find an empty channel busy (`MpscChannel.BusyThoughEmpty`), exactly when the
  receiver has overtaken its copy of tail (`MpscChannel.BusyIsWrongExactlyWhen`);
- a list spliced and drained is empty afterwards if and only if it was empty before
  (`IntrusiveList.HandOff`): a one-shot timer that expired alone is handed over again by the next
  call that advances the clock (`IntrusiveList.HandedOverTwice`), and with two or more such
  timers that call never ends (`IntrusiveList.HandedOverForever`); after a cascade, the next timer
  put into the old slot, or its next cascade, leaves the lists of the other slots well-formed if
  and only if there was nothing to cascade (`IntrusiveList.CascadeThenAdd`,
  `IntrusiveList.CascadeThenSplice`);
- a task accepted around a graceful shutdown may never run (`PoolAccounting.AcceptedAndLeftOver`):
  once the last worker has left gracefully, a task has been started if and only if it was counted
  before that exit and not refused (`PoolAccounting.StartedExactly`);
- connections are registered edge-triggered (src/ipc/qd_ipc_unix.c:230), yet the read loop leaves when
  the buffer is full, so bytes may stay in the socket with no call to follow. A message of a stream
  of acceptable ones is dispatched in every run if and only if it and all before it fit into the
  receive buffer together (`IpcStream.DispatchedInEveryRun`; `IpcStream.BurstOfThree` is a run that
  leaves one out), and in some run if and only if they fit one by one (`IpcStream.DispatchedInSomeRun`).
  For a given run, `IpcStream.LeftInSocket` and `IpcStream.DrainsExactly` say when bytes are left;
- a receive buffer that is full stays full (`IpcStream.StalledExactly`), which with the default of
  8192 bytes happens from 8101 payload bytes on, while 65536 are acceptable;
- the slab lookup takes exactly the objects of a slab if and only if the object size divides the
  slab size (`SlabCache.MatchesExactlyObjects`), and taking an address back leaves the slab in
  order if and only if it is a live object (`SlabCache.ReturnedExactly`);
- masking a position with the capacity less one finds its slot if and only if the capacity is a
  power of two (`RingIndex.MaskExactly`);
- read sections of the sequence lock over k completed writes are never torn if and only if k is
  zero or no multiple of 2^31 (`SeqLock.SafeExactly`);
- printing and reading a configuration gives it back if and only if its names and values are
  printable (`IniConfig.RoundTripExactly`), and likewise for IPC messages (`IpcFrame.RoundTripExactly`).

Where code and C standard differ, the code is followed: the expression parser accepts any
conditional expression as the target of an assignment, while section 6.5.16 of ISO C11 asks for a
unary expression.

## Model

| member | source | states |
|---|---|---|
| `WorkStealingDeque.PushWriteKeepsInv` | src/core/qd_threadpool.c:179-196 | writing a task into its slot disturbs neither a held task nor one a thief has read and may still win |
| `WorkStealingDeque.PopLoadTopKeepsInv` | src/core/qd_threadpool.c:198-231 | after lowering bottom, the owner's load of top decides rightly between an empty deque, a safe take, and the race for the last task |
| `WorkStealingDeque.OwnerKeepsInv` | src/core/qd_threadpool.c:179-231 | every step of push and pop keeps the invariant and is a step of an atomic deque |
| `WorkStealingDeque.ThiefKeepsInv` | src/core/qd_threadpool.c:233-254 | every step of steal keeps the invariant and is a step of an atomic deque |
| `WorkStealingDeque.StepRefinesDeque` | src/core/qd_threadpool.c:179-254 | each step leaves the held tasks alone, appends a pushed one, takes the newest for the owner or the oldest for a thief |
| `WorkStealingDeque.RunsAreLinearizable` | src/core/qd_threadpool.c:179-254 | the events of every interleaving replay on an atomic deque and end in the tasks the machine holds |
| `WorkStealingDeque.StepConserves` | src/core/qd_threadpool.c:179-254 | pushed tasks are those returned, in the owner's hand or held, at every step |
| `WorkStealingDeque.DequeSafety` | src/core/qd_threadpool.c:149-254 | in every run at most capacity - 1 tasks are held, returned ones were pushed, and pushed minus returned is what is held |
| `WorkStealingDeque.NoTaskReturnedTwice` | src/core/qd_threadpool.c:198-254 | when pushed tasks are distinct, no two returns, by owner or thieves, give the same task |
| `WorkStealingDeque.FailuresAreTruthful` | src/core/qd_threadpool.c:179-254 | push fails exactly at capacity - 1 tasks, pop finds nothing only when nothing is held, and also when it loses the last one; steal gives up before reading only when at most the task the owner is popping is held, never between its look at bottom and its compare-and-swap, and there exactly when top has moved past the position it read |
| `WorkStealingDeque.LostToAnother` | src/core/qd_threadpool.c:242-253 | when top has moved past a position, some step before returned the task held there, so a thief that loses its compare-and-swap lost that very task to another thread |
| `WorkStealingDeque.PushFinishes` | src/core/qd_threadpool.c:179-196 | from anywhere inside a push, the owner left alone is through in three steps: the task of the call is appended, or refused on a full deque |
| `WorkStealingDeque.PopFinishes` | src/core/qd_threadpool.c:198-231 | from anywhere inside a pop, the owner left alone is through in five steps: with the task in hand, else the newest held task, else nothing |
| `WorkStealingDeque.StealFinishes` | src/core/qd_threadpool.c:233-254 | from anywhere inside a steal, a thief left alone is through in three steps: with the task at its copy of top if that still is top and there was work, else with nothing |
| `WorkStealingDeque.CallsAlone` | src/core/qd_threadpool.c:179-254 | with the owner idle, whole calls left alone are the operations of an atomic deque: push appends its task if there is room, pop takes the newest, steal the oldest |
| `MpmcRing.StepKeepsInv` | src/core/qd_threadpool.c:70-122 | every step of push and pop by any thread keeps cell sequence numbers, phases and claims consistent |
| `MpmcRing.StepRefinesFifo` | src/core/qd_threadpool.c:70-122 | the compare-and-swap of a producer appends its own task to a queue within the capacity, that of a consumer takes the front, and no other step changes the queue |
| `MpmcRing.DeliversThePushed` | src/core/qd_threadpool.c:97-122 | a pop that finishes delivers the task its position was pushed with, which nobody got before, and no other step delivers anything |
| `MpmcRing.FullIsTruthful` | src/core/qd_threadpool.c:70-95 | push gives up, at whatever point, only on finding that the task one lap back is not released; a lost compare-and-swap never ends it |
| `MpmcRing.EmptyIsTruthful` | src/core/qd_threadpool.c:97-122 | pop gives up, at whatever point, only when the queue is empty or its oldest task is still being written |
| `MpmcRing.PushFinishes` | src/core/qd_threadpool.c:70-95 | from anywhere inside a push, a thread left alone is through in six steps, stale positions and retries included: its task is appended if the cell of tail is free, else refused |
| `MpmcRing.PopFinishes` | src/core/qd_threadpool.c:97-122 | from anywhere inside a pop, a thread left alone is through in six steps: with the oldest task if that is written, else with nothing |
| `MpmcRing.PushCall` | src/core/qd_threadpool.c:70-95 | a whole push left alone appends its task, for every capacity from two on, unless the ring is full or a consumer has not released the cell yet |
| `MpmcRing.PopCall` | src/core/qd_threadpool.c:97-122 | a whole pop left alone takes the oldest task, unless the ring is empty or that task is still being written |
| `MpmcRing.RingSafety` | src/core/qd_threadpool.c:37-122 | with two cells or more, in every run tail is within a capacity of head and the k-th pop gets the k-th push |
| `MpmcRing.CapacityOneOverwrites` | src/core/qd_threadpool.c:37-95 | with one cell, which initialisation accepts, a second push is taken before any pop and overwrites the first task |
| `MpmcRing.SafeExactlyFromTwo` | src/core/qd_threadpool.c:37-122 | the ring is safe in every run if and only if its capacity is at least two |
| `WorkQueue.Arrival` | src/core/qd_threadpool.c:328-343 | a task is served after all that arrived before it with its priority or a higher one, and before all of lower priority |
| `WorkQueue.Queue.Push` | src/core/qd_threadpool.c:321-349 | a normal task goes to the back of the deque, refused when that is full, any other takes its place in the order of service; the count is the number of tasks |
| `WorkQueue.Queue.PopPriority` | src/core/qd_threadpool.c:379-399 | takes the first task in the order of service, or finds the lists empty |
| `WorkQueue.Queue.Pop` | src/core/qd_threadpool.c:351-377 | takes the first task in the order of service, or else the newest of the deque, or finds both empty |
| `WorkQueue.Queue.Steal` | src/core/qd_threadpool.c:401-407 | takes the oldest task of the deque and none from the lists |
| `PoolAccounting.PutKeepsInv` | src/core/qd_threadpool.c:321-349 | handing a counted task to a container moves it in the account and changes no total |
| `PoolAccounting.TakeKeepsInv` | src/core/qd_threadpool.c:551-608 | a worker taking a task from any container starts one that was never started before |
| `PoolAccounting.StepKeepsInv` | src/core/qd_threadpool.c:525-676 | every step of a submitter or worker keeps count and tasks in agreement |
| `PoolAccounting.PoolSafety` | src/core/qd_threadpool.c:885-1102 | in every reachable state pending is the number of tasks being queued, queued or running, and no task was started twice |
| `PoolAccounting.ZeroMeansDone` | src/core/qd_threadpool.c:1116-1133 | when pending is zero nothing is being queued, queued or running, and every task counted so far was refused or has run to its end |
| `PoolAccounting.GracefulExit` | src/core/qd_threadpool.c:532-539 | in every run a worker leaving on a graceful shutdown does so at such a moment |
| `PoolAccounting.LeftOversAreLate` | src/core/qd_threadpool.c:532-539 | whatever follows a graceful exit, tasks counted before it stay done or refused |
| `PoolAccounting.AcceptedAndLeftOver` | src/core/qd_threadpool.c:885-940 | a run in which a submit that saw the pool running is accepted after the only worker has left |
| `PoolAccounting.NothingStarts` | src/core/qd_threadpool.c:525-676 | once no worker is left, no task is ever started again, whatever is submitted |
| `PoolAccounting.StartedExactly` | src/core/qd_threadpool.c:532-539 | after the last graceful exit, at every later moment a task has been started if and only if it was counted before that exit and not refused |
| `PoolAccounting.CountedBeforeShutdown` | src/core/qd_threadpool.c:1104-1114 | a task counted before the graceful shutdown was asked for has run to its end, or was refused, by the time any worker leaves gracefully |
| `PoolAccounting.SubmitQueues` | src/core/qd_threadpool.c:885-940 | a submit left alone on a running pool with room leaves exactly one more task, counted and queued |
| `PoolAccounting.SubmitGivesUp` | src/core/qd_threadpool.c:885-940 | one that finds no room anywhere leaves the count as it was and the task refused |
| `PoolAccounting.NothingAccepted` | src/core/qd_threadpool.c:1104-1114 | once a shutdown has cleared the running flag and no submit is under way, no task is ever counted again |
| `PoolAccounting.GoesOnExactly` | src/core/qd_threadpool.c:525-545 | a worker at the top of its loop leaves on an immediate shutdown, on a graceful one exactly when nothing is pending, and looks for work otherwise |
| `PoolAccounting.RunsWhatItFinds` | src/core/qd_threadpool.c:551-676 | a worker that finds a task takes it, runs it and takes it off the count; one that finds none goes back to the top |
| `RbShape.PlugRedBlack` | src/util/qd_rbtree.h:17-33 | a red-black subtree in a context that accepts its black height and colour makes a red-black tree |
| `RbShape.HeightBound` | src/util/qd_rbtree.h:17-33 | a red-black tree with n nodes has height at most 2 log2(n + 1) |
| `RbPointers.RotateLeft` | src/util/qd_rbtree.h:49-70 | rewrites the pointers so that the tree in focus is its left rotation, the rest of the tree and all parent links intact |
| `RbPointers.RotateRight` | src/util/qd_rbtree.h:72-93 | the mirror image |
| `RbPointers.RotationOrder` | src/util/qd_rbtree.h:49-93 | rotations keep the in-order sequence |
| `RbInsert.InsertFixup` | src/util/qd_rbtree.h:96-145 | from a tree whose only flaw is a red node under a red parent or at the root, ends in a red-black tree with the same in-order sequence, and terminates |
| `RbInsert.LinkNode` | src/util/qd_rbtree.h:148-156 | storing a new red node in a null link puts it into the hole of the tree |
| `RbInsert.Insert` | src/util/qd_rbtree.h:96-156 | linking at any null link and fixing up gives a valid tree with the node next to its parent in order |
| `RbErase.EraseFixup` | src/util/qd_rbtree.h:159-227 | from a tree one black short at the focus, ends in a red-black tree with the same in-order sequence, and terminates |
| `RbErase.FindSuccessor` | src/util/qd_rbtree.h:242-244 | finds the leftmost node of the right subtree, which is the next in order, with the path to it |
| `RbErase.Exchange` | src/util/qd_rbtree.h:246-273 | the successor takes the erased node's place, colour and children, also when it is the right child itself |
| `RbErase.EraseTwoChildren` | src/util/qd_rbtree.h:239-278 | erasing a node with two children gives a red-black tree without it, order kept |
| `RbErase.EraseOneChild` | src/util/qd_rbtree.h:280-297 | erasing a node with at most one child gives a red-black tree without it, order kept |
| `RbErase.Erase` | src/util/qd_rbtree.h:230-297 | erasing any node of any valid tree gives a valid tree whose in-order sequence is the old one minus that node |
| `RbWalk.First` | src/util/qd_rbtree.h:300-308 | returns the first node in order, or null for an empty tree |
| `RbWalk.Next` | src/util/qd_rbtree.h:322-337 | returns the node's in-order successor, or null after the last |
| `RbWalk.Walk` | src/util/qd_rbtree.h:300-337 | following next from first visits every node exactly once, in order, and stops |
| `RbWalk.ValidIsShallow` | src/util/qd_rbtree.h:96-297 | every valid tree obeys the height bound |
| `TimerWheel.SlotIsOnTime` | src/core/qd_timer.c:18-40 | the slot computed for any deadline, however far, is one where the timer will be found in time |
| `TimerWheel.CurrentSlot` | src/core/qd_timer.c:156-173 | of the timers that are on time, exactly those due now are in the current level 0 slot |
| `TimerWheel.NextTick` | src/core/qd_timer.c:175-188 | a timer on time and not due stays due for its slot at the next tick, and on time unless its slot begins then |
| `TimerWheel.Wheel.constructor` | src/core/qd_timer.c:64-88 | a new wheel is valid and empty, with the tick length asked for, or one millisecond |
| `TimerWheel.Wheel.AddTimer` | src/core/qd_timer.c:43-53 | links a timer into its slot and keeps lists and records in agreement |
| `TimerWheel.Wheel.RemoveTimer` | src/core/qd_timer.c:55-62 | unlinks a timer if it is linked, and keeps the agreement |
| `TimerWheel.Wheel.ExpireCurrent` | src/core/qd_timer.c:156-173 | moves exactly the timers whose deadline is the current tick to the expired list; the re-add branch is dead |
| `TimerWheel.Wheel.Cascade` | src/core/qd_timer.c:116-136 | redistributing the slot that begins now puts its level on time and changes no deadline |
| `TimerWheel.Wheel.CascadeAll` | src/core/qd_timer.c:178-187 | after the nested cascades every timer is on time again |
| `TimerWheel.Wheel.Advance` | src/core/qd_timer.c:155-188 | one iteration of the tick loop expires exactly the timers due at that tick and keeps all other deadlines |
| `TimerWheel.Wheel.Tick` | src/core/qd_timer.c:145-195 | up to the target tick, every timer due before it is handed over once, at the tick of its deadline, in order of deadline; the rest of the bag stays |
| `TimerWheel.Wheel.Rearm` | src/core/qd_timer.c:197-219 | periodic timers that fired are scheduled one interval from now, others are left alone |
| `TimerWheel.Wheel.Process` | src/core/qd_timer.c:138-223 | a whole call fires what is due in the bag; afterwards the bag holds what was not due, and the periodic timers that were, one interval from now |
| `TimerWheel.Wheel.Start` | src/core/qd_timer.c:296-354 | the deadline in the bag becomes now plus d ticks, whether or not the timer was scheduled: d ticks are at most the delay and d + 1 are more, and d is one for a delay shorter than a tick |
| `TimerWheel.Wheel.Stop` | src/core/qd_timer.c:368-388 | takes the timer out of the bag |
| `TimerWheel.RearmedDeadlines` | src/core/qd_timer.c:208-219 | rearming adds each periodic fired timer to the bag, one interval from now, and nothing else |
| `TimerWheel.TicksCompose` | src/core/qd_timer.c:145-195 | a run to one tick and from there a run to a later one fire together, in order, what a single run has to fire, and leave the same bag |
| `TimerWheel.ProcessedBag` | src/core/qd_timer.c:190-219 | the bag after firing and rearming, as a function of the bag before the call |
| `IntrusiveList.AddTail` | src/util/qd_list.h:30-52 | appends an element to a well-formed list and keeps it well-formed |
| `IntrusiveList.HandOff` | src/core/qd_timer.c:190-206 | splicing a list into a temporary head and draining it gives its elements once, each pointing to itself, and leaves the source head as it was: empty if and only if it was empty before |
| `IntrusiveList.HandedOverTwice` | src/core/qd_timer.c:190-206 | a one-shot timer that expired alone is handed over by two hand-offs in a row |
| `IntrusiveList.HandedOverForever` | src/core/qd_timer.c:190-206 | after two or more expired one-shot timers the next hand-off gives the first of them in every round of a loop whose end test never holds |
| `IntrusiveList.Cascade` | src/core/qd_timer.c:116-136 | the cascade as written moves every timer to the list of its new slot, all of which stay well-formed, and leaves the old slot's head naming its first and last timer |
| `IntrusiveList.CascadeThenAdd` | src/core/qd_timer.c:116-136 | a timer put into the old slot next leaves the other lists well-formed if and only if there was nothing to cascade |
| `IntrusiveList.CascadeThenSplice` | src/core/qd_timer.c:116-136 | the next cascade of the old slot does so if and only if there was nothing to cascade |
| `IntrusiveList.HandOffReset` | src/util/qd_list.h:130-149 | with the source head reset after the splice, the elements come out once and the source is empty |
| `MpscChannel.StepKeepsInv` | src/core/qd_channel.c:182-345 | every step of a sender or the receiver keeps each slot of the window free, pending or holding its committed item |
| `MpscChannel.ChannelSafety` | src/core/qd_channel.c:182-345 | in every run the received items are a prefix of the reserved ones in reservation order, and nothing outstanding is lost |
| `MpscChannel.HistoryIsTrue` | src/core/qd_channel.c:193-236 | an item is reserved exactly by its sender's compare-and-swap, and received only from a committed slot its sender is through with |
| `MpscChannel.RecvTakesNext` | src/core/qd_channel.c:293-345 | a receive call that took i items from head h took the reservations h to h + i |
| `MpscChannel.BatchIsSingles` | src/core/qd_channel.c:250-345 | a batch receive takes what is there, up to what it asks for, and ends in the very state in which as many single receives end |
| `MpscChannel.SinglesSuffice` | src/core/qd_channel.c:182-345 | for every run, batches and singles interleaved with senders at will, there is one with the same sender steps in which every receive is a single one left alone; it publishes the same items and, when no receive is going on, ends in the very same state |
| `MpscChannel.QuiescentContents` | src/core/qd_channel.c:182-291 | with nobody in a call the ring holds exactly what was sent and not received, and the other flags are clear |
| `MpscChannel.AgainIsTruthful` | src/core/qd_channel.c:260-265 | "again" is said only of an empty channel |
| `MpscChannel.BusyIsWrongExactlyWhen` | src/core/qd_channel.c:195-226 | "busy" is wrong exactly when the receiver has overtaken the sender's copy of tail |
| `MpscChannel.BusyThoughEmpty` | src/core/qd_channel.c:195-226 | for every capacity, a run after which a sender finds the empty channel busy |
| `MpscChannel.GivesUpOnlyWhenFull` | src/core/qd_channel.c:193-228 | a send gives up, at whatever point, only on the full test; a lost compare-and-swap never ends it |
| `MpscChannel.SendFinishes` | src/core/qd_channel.c:193-236 | from anywhere inside a send, a sender left alone is through in seven steps, retries included; what it has done then is given exactly |
| `MpscChannel.GivesUpOnPending` | src/core/qd_channel.c:315-342 | a batch receive that gives up on an item not committed yet publishes exactly what it has taken |
| `ShmRing.SlotGap` | src/ipc/qd_ipc_shm.c:186-214 | the two "available" counts computed from wrapped positions are the true distances |
| `ShmRing.AddressIsSlot` | src/ipc/qd_ipc_shm.c:252-259 | the one or two block copies put byte k of a transfer where stream position plus k belongs |
| `ShmRing.StepKeepsInv` | src/ipc/qd_ipc_shm.c:242-337 | every step of writer or reader keeps the unread bytes in their places |
| `ShmRing.RingSafety` | src/ipc/qd_ipc_shm.c:233-337 | in every interleaving the bytes read are a prefix of the bytes written, and the unread ones stand in the ring |
| `ShmRing.UnreadUntouched` | src/ipc/qd_ipc_shm.c:252-264 | no step of the writer changes a published, unread byte |
| `ShmRing.QuiescentSpace` | src/ipc/qd_ipc_shm.c:186-214 | readable space is what is unread, and readable plus writable is the size less one |
| `ShmRing.StaleIsConservative` | src/ipc/qd_ipc_shm.c:186-214 | what a side computes from a stale position never exceeds what is there |
| `ShmRing.WriteFinishes` | src/ipc/qd_ipc_shm.c:242-270 | from anywhere inside a write, the writer left alone publishes all its bytes if they fit, and none otherwise |
| `ShmRing.ReadFinishes` | src/ipc/qd_ipc_shm.c:290-337 | from anywhere inside a read, the reader left alone gets the next bytes of the stream if there are as many, and none otherwise |
| `ShmRing.WriteCall` | src/ipc/qd_ipc_shm.c:233-270 | a whole write left alone goes through exactly if what is unread and the new bytes together leave one byte free |
| `ShmRing.ReadCall` | src/ipc/qd_ipc_shm.c:283-337 | a whole read left alone goes through exactly if as many bytes are unread |
| `SlabCache.GeometryFor` | src/core/qd_memory.c:237-268 | the object size is the least multiple of the alignment, at least eight, that holds the size, at least eight; a slab is a page, or four objects where one is larger than a quarter page, and holds at least four |
| `SlabCache.MatchesExactlyObjects` | src/core/qd_memory.c:174-182 | the pointer test takes exactly the slab's objects if and only if the object size divides the slab size |
| `SlabCache.Cache.constructor` | src/core/qd_memory.c:237-280 | a new cache is valid and has no live object |
| `SlabCache.Cache.BuildFreelist` | src/core/qd_memory.c:130-137 | the loop threads every object of the slab once |
| `SlabCache.Cache.AddSlab` | src/core/qd_memory.c:112-140 | a new slab is on the empty list, and nothing else changes |
| `SlabCache.Cache.RelistTaken` | src/core/qd_memory.c:351-365 | after handing out an object the slab is on the list its count dictates |
| `SlabCache.Cache.RelistReturned` | src/core/qd_memory.c:184-207 | after taking back an object the slab is on the list its count dictates |
| `SlabCache.Cache.Alloc` | src/core/qd_memory.c:312-380 | hands out the first free object of the first partial slab, else of the first empty one, else of a new one; it was not live, nothing else moves, and failure changes nothing |
| `SlabCache.Cache.Find` | src/core/qd_memory.c:210-235 | finds the one slab an object belongs to, and nothing where the pointer test takes no slab |
| `SlabCache.Cache.Free` | src/core/qd_memory.c:395-426 | a live object stops being live and is the next its slab hands out; a pointer of no slab, and null, are refused without change |
| `SlabCache.Cache.Shrink` | src/core/qd_memory.c:433-454 | releases all slabs without live objects and no others |
| `SlabCache.Cache.ActiveObjects` | src/core/qd_memory.c:456-486 | the count of active objects is the number of live ones, and of allocations less frees |
| `SlabCache.ReturnedExactly` | src/core/qd_memory.c:174-207 | putting an address at the front of a slab's free list leaves the slab in order if and only if it is a live object of the slab |
| `SlabCache.InUseIsLive` | src/core/qd_memory.c:184-207 | a slab's count of objects in use is the number of its live objects |
| `Arena.Arena.constructor` | src/core/qd_memory.c:495-516 | a new arena has one block of the size asked for, or the default size, and no regions |
| `Arena.Arena.AllocAligned` | src/core/qd_memory.c:519-583 | a region lies at the least offset behind what is used that is a multiple of the alignment asked for, or of eight if none is; if that does not fit, at the start of a new block of the size the code asks for; disjoint from all others since the reset |
| `Arena.FitsExactly` | src/core/qd_memory.c:523-527 | a request fits the current block if and only if there is such an offset, and there is at most one |
| `Arena.Arena.Link` | src/core/qd_memory.c:535-558 | a further block goes behind the current one and becomes the current one |
| `Arena.Arena.Reset` | src/core/qd_memory.c:619-636 | only the first block is left, empty and current, and no region is handed out |
| `CintParser.Parser.ParsePrimary` | src/cint/qd_cint_parser.c:156-208 | computes the specification's primary expression, errors included |
| `CintParser.Parser.ParsePostfix` | src/cint/qd_cint_parser.c:210-284 | the suffix loop computes the specification's suffixes |
| `CintParser.Parser.ParseArguments` | src/cint/qd_cint_parser.c:219-232 | the argument loop computes the specification's argument list |
| `CintParser.Parser.ParseUnary` | src/cint/qd_cint_parser.c:286-324 | computes the specification's unary expression |
| `CintParser.Parser.ParseBinary` | src/cint/qd_cint_parser.c:326-483 | the loop of each binary level computes the specification's left-associative chain |
| `CintParser.Parser.ParseTernary` | src/cint/qd_cint_parser.c:485-507 | computes the specification's conditional expression |
| `CintParser.Parser.ParseAssignment` | src/cint/qd_cint_parser.c:509-543 | computes the specification's right-associative assignment |
| `CintRoundTrip.ReadsAssignment` | src/cint/qd_cint_parser.c:156-543 | every derivation of the grammar is read as its tree, and parsing stops right behind it |
| `CintRoundTrip.AcceptsAssignment` | src/cint/qd_cint_parser.c:156-543 | what is parsed without error is a derivation of the tree returned |
| `CintRoundTrip.ParsesTheGrammar` | src/cint/qd_cint_parser.c:156-543 | a tree is returned without error if and only if the tokens consumed are a derivation of it |
| `CintRoundTrip.RoundTrip` | src/cint/qd_cint_parser.c:156-543 | parsing the minimally parenthesised print of a tree gives the tree and consumes exactly the print |
| `CintRoundTrip.Unambiguous` | src/cint/qd_cint_parser.c:326-543 | precedence and associativity leave a token string at most one reading |
| `CintStandard.TighterOnTheRight` | src/cint/qd_cint_parser.c:326-483 | for any two productions of sections 6.5.5 to 6.5.14 of ISO C11 and any operands, `a lo b hi c` is parsed as lo(a, hi(b, c)), with the tokens and the operators they make written out |
| `CintStandard.GroupsToTheLeft` | src/cint/qd_cint_parser.c:326-483 | `a hi b lo c` is parsed as lo(hi(a, b), c), and operators of one production group from left to right |
| `CintStandard.ParenthesesGroup` | src/cint/qd_cint_parser.c:189-193 | parentheses make an operand of any expression, on either side of any operator |
| `CintStandard.PrefixOnTheLeft` | src/cint/qd_cint_parser.c:286-324 | each prefix operator binds tighter than any binary one behind its operand |
| `CintStandard.PrefixOnTheRight` | src/cint/qd_cint_parser.c:286-324 | and than any binary one before it |
| `CintStandard.PostfixBindsTighter` | src/cint/qd_cint_parser.c:210-284 | postfix increment and decrement bind tighter than any prefix operator |
| `CintStandard.MemberBindsTighter` | src/cint/qd_cint_parser.c:210-284 | so do member accesses by dot and by arrow |
| `CintStandard.IndexBindsTighter` | src/cint/qd_cint_parser.c:210-284 | so does indexing by any expression |
| `CintStandard.CallBindsTighter` | src/cint/qd_cint_parser.c:210-284 | so do calls, with any expressions as arguments |
| `CintStandard.AssignmentsGroupToTheRight` | src/cint/qd_cint_parser.c:509-543 | assignments group from right to left, with the tokens and the operators they make written out |
| `CintStandard.AssignmentComesLast` | src/cint/qd_cint_parser.c:509-543 | any binary operator binds tighter than assignment |
| `CintStandard.ConditionalComesLater` | src/cint/qd_cint_parser.c:485-507 | any binary operator binds tighter than the conditional, between whose marks stands any expression |
| `CintStandard.ConditionalsGroupToTheRight` | src/cint/qd_cint_parser.c:485-507 | conditionals group from right to left |
| `CintStandard.AssignsConditional` | src/cint/qd_cint_parser.c:485-543 | the conditional binds tighter than assignment |
| `CintExpr.MinimalDerives` | src/cint/qd_cint_parser.c:326-543 | the minimal form of a tree is a derivation of it for its place |
| `CintExpr.PrintIsShortest` | src/cint/qd_cint_parser.c:189-193 | no derivation of the same tree has fewer tokens than the minimal print |
| `IniText.TrimString` | src/daemon/qd_config.c:14-22 | the two loops compute the trimmed string |
| `IniText.TrimOf` | src/daemon/qd_config.c:14-22 | trimming takes exactly the white space around a trimmed string away |
| `IniConfig.Config.SetEntry` | src/daemon/qd_config.c:57-71 | sets an existing key in place and appends a new one |
| `IniConfig.Config.CreateSection` | src/daemon/qd_config.c:172-189 | opens a section, appending it if it is new; the empty name is the global section |
| `IniConfig.Config.LoadString` | src/daemon/qd_config.c:104-126 | the line loop computes the specification's reading of the text |
| `IniConfig.Config.PrintTo` | src/daemon/qd_config.c:345-354 | the nested loops print the specification's lines |
| `IniConfig.PrintedIsReadBack` | src/daemon/qd_config.c:345-354 | a printable configuration is read back with the same sections, entries and order |
| `IniConfig.LoadIsPrintable` | src/daemon/qd_config.c:104-126 | whatever text is read, the result is printable and survives printing and reading |
| `IniConfig.RoundTripExactly` | src/daemon/qd_config.c:345-354 | printing and reading give a configuration back if and only if it is printable |
| `IniConfig.LastValueWins` | src/daemon/qd_config.c:57-71 | setting a key gives it the new value at its old place, or at the end if it is new, and leaves every other value alone |
| `IniConfig.LaterLineWins` | src/daemon/qd_config.c:57-71 | of two lines in a row for one key, only the second counts |
| `IniConfig.HeaderReopens` | src/daemon/qd_config.c:172-189 | a header opens the section of its name, an existing one if there is one, and changes nothing else |
| `IniConfig.CommentsSayNothing` | src/daemon/qd_config.c:104-126 | a comment line changes nothing, whatever white space is before it |
| `IpcFrame.RoundTripExactly` | src/ipc/qd_ipc_protocol.c:126-200 | deserializing inverts serializing if and only if the message is acceptable |
| `IpcFrame.AcceptedFrame` | src/ipc/qd_ipc_protocol.c:156-200 | an accepted frame is the serialized message but for the forced last byte of the name |
| `IpcFrame.HeaderRoundTrip` | include/qdaemon/qd_ipc.h:61-69 | the packed 28-byte header holds every field value its type can hold |
| `IpcFrame.HeaderLayout` | include/qdaemon/qd_ipc.h:61-69 | which bytes of the header hold which field |
| `IpcFrame.LittleEndian` | include/qdaemon/qd_ipc.h:61-69 | byte i of a field is its i-th digit to the base of 256, the lowest first |
| `IpcStream.FramesThenMore` | src/ipc/qd_ipc_unix.c:306-348 | reading bytes and then more is reading all of them, so only left-over bytes need keeping |
| `IpcStream.SentIsRead` | src/ipc/qd_ipc_unix.c:306-348 | the bytes of acceptable messages, one after the other, are read as these messages |
| `IpcStream.Conn.Fill` | src/ipc/qd_ipc_unix.c:280-304 | whatever sizes the reads have, the bytes are appended until the buffer is full or the socket drained |
| `IpcStream.Conn.Shift` | src/ipc/qd_ipc_unix.c:343-347 | moves the rest of the buffer to the front |
| `IpcStream.Conn.Extract` | src/ipc/qd_ipc_unix.c:306-348 | dispatches exactly the frames of the buffer in order and keeps the rest, or disconnects where the protocol is broken |
| `IpcStream.Conn.OnReadable` | src/ipc/qd_ipc_unix.c:270-349 | after any number of calls with any chunks, exactly the frames of all bytes received are dispatched, the buffer holds the rest, it has room if the next frame fits, and a call takes what is there up to the room left |
| `IpcStream.CalledIsCallback` | src/ipc/qd_ipc_unix.c:280-348 | on a stream of acceptable messages a call takes what has arrived, up to the capacity behind the start of the pending frame |
| `IpcStream.StalledExactly` | src/ipc/qd_ipc_unix.c:281-286 | at any moment of any run, no later call takes anything if and only if the buffer is full; then the pending frame exceeds the capacity, and a pending frame that does fills the buffer |
| `IpcStream.DispatchedInEveryRun` | src/ipc/qd_ipc_unix.c:229-349 | a message of the stream is dispatched in every edge-triggered run if and only if it and all messages before it fit into the buffer together |
| `IpcStream.DispatchedInSomeRun` | src/ipc/qd_ipc_unix.c:229-349 | it is dispatched in some edge-triggered run if and only if it and all messages before it fit into the buffer one by one |
| `IpcStream.LeftInSocket` | src/ipc/qd_ipc_unix.c:281-286 | after any calls, a call leaves bytes in the socket if and only if what has arrived reaches further than the capacity behind the start of the pending frame |
| `IpcStream.DrainsExactly` | src/ipc/qd_ipc_unix.c:281-286 | in an edge-triggered run every call drains the socket if and only if no arrival reaches further than that, which is a condition on the arrivals alone |
| `IpcStream.BurstOfThree` | src/ipc/qd_ipc_unix.c:229-349 | three messages that each fit into the default buffer, sent at once: the third is not dispatched |
| `IpcStream.Serve` | src/ipc/qd_ipc_unix.c:270-349 | a connection called at these moments has received and dispatched exactly what the runs above say |
| `IpcStream.Arrives` | src/ipc/qd_ipc_unix.c:270-349 | were the callback called again while bytes are left, as with a level-triggered registration, a message that fits, as do all before it, would be dispatched after any calls |
| `RwLock.CountedWhileWriting` | src/util/qd_atomic.h:180-199 | a run after which a reader that saw no writer is counted while a writer is inside |
| `RwLock.StepKeepsInv` | src/util/qd_atomic.h:180-227 | every step of any thread keeps reader count, writer flag and exclusion |
| `RwLock.Exclusion` | src/util/qd_atomic.h:180-227 | in every run no writer is inside with a reader or another writer, readers counts the threads between increment and decrement, and those counted while a writer is inside back off |
| `RwLock.ReadLockFinishes` | src/util/qd_atomic.h:180-199 | from anywhere inside a read lock, a thread left alone is inside within four steps if no writer has the flag, and otherwise back at the start and not counted |
| `RwLock.WriteLockFinishes` | src/util/qd_atomic.h:206-222 | from anywhere inside a write lock, a thread left alone takes a free flag and is inside exactly if nobody is counted |
| `RwLock.LockAndUnlock` | src/util/qd_atomic.h:180-227 | on a free lock, locking left alone gets the thread inside and unlocking leaves everything as it was |
| `SeqLock.AcceptedIsOneVersion` | src/util/qd_atomic.h:241-266 | an accepted read section saw all fields from one completed write, if fewer than 2^31 writes completed meanwhile |
| `SeqLock.TornAcrossWrap` | src/util/qd_atomic.h:241-266 | when a multiple of 2^31 writes completes during it, an accepted read section may hold a mixture no write made |
| `SeqLock.SafeExactly` | src/util/qd_atomic.h:241-266 | in every run, every accepted read section over k completed writes saw one version, if and only if k is zero or no multiple of 2^31 |
| `SeqLock.LetThroughExactly` | src/util/qd_atomic.h:250-254 | a section is let through exactly if a multiple of 2^32 increments fell into it, keeping all that was read, and repeated otherwise |
| `SeqLock.BeginsExactly` | src/util/qd_atomic.h:241-248 | a section can begin exactly while nobody writes |
| `SeqLock.ReadAlone` | src/util/qd_atomic.h:241-254 | a reader left alone while nobody writes is let through with the values of exactly the fields it asked for |
| `SeqLock.WriteAlone` | src/util/qd_atomic.h:256-266 | a write left alone, of fields in any order, ends with these fields changed and a new version |
| `RingIndex.SlotIsMod` | src/ipc/qd_ipc_shm.c:252-264 | the slot of a position is the remainder by the capacity |
| `RingIndex.MaskExactly` | src/core/qd_channel.c:106-112 | masking with the capacity less one gives the slot of every position if and only if the capacity is a power of two |
| `Alignment.MaskAlignsExactly` | include/qdaemon/qd_common.h:46 | adding the alignment less one and masking rounds every number up to a multiple if and only if the alignment is a power of two |

## Left out

- Sockets, event loops, signals, daemonisation, logging, command line, netlink, kernel modules: plumbing over libraries that are not modelled.
- Weak memory: see the assumption of sequential consistency.
- WorkQueue.Queue.Push: a call is one sequential step here, the count included; in the code the count is a separate atomic access after the lists have changed, so other threads may see it lag.
- WorkQueue.Queue.PopPriority: see WorkQueue.Queue.Push.
- WorkQueue.Queue.Pop: see WorkQueue.Queue.Push.
- WorkQueue.Queue.Steal: never loses a race here, calls being sequential; `WorkStealingDeque` has the race.
- TimerWheel.Wheel.Cascade: about the repaired splice, which leaves the slot empty; see `IntrusiveList.HandOff` for the splice as written.
- TimerWheel.Wheel.Tick: about the repaired splice; with the splice as written a timer is handed over again, see `IntrusiveList.HandedOverTwice`.
- TimerWheel.Wheel.Process: about the repaired splice, and without the callbacks.
- SlabCache.Cache.Free: takes a live object, or a pointer no slab accepts. The code also takes an object that is free already and the address behind the last object; `SlabCache.ReturnedExactly` shows that exactly these spoil the free list.
- MpscChannel.BatchIsSingles: about a batch no sender steps into, which takes all it can; `MpscChannel.SinglesSuffice` has the senders in between.
- `PoolAccounting`: containers may give any task they hold; the order they keep is proved of each of them separately.
- Futures, pausing, waking of workers, and the choice of steal victims: they do not touch the count of pending tasks.
- `qd_rb_last`, `qd_rb_prev`, `qd_rb_replace_node`: mirror images or simpler than what is proved.
- Timers: the state field, `num_timers`, `qd_timer_wheel_next_timeout`, `qd_timer_wheel_tick_to`, restart and set-delay, which reduce to start; callbacks that start or stop timers while the fired list is being worked off; tick counts wrapping at 2^64.
- `MpscChannel`: the overflow flag, blocking send and receive, closing, and the wake-up signal.
- `ShmRing`: waiting with futexes and timeouts, which retry the modelled attempt; creating and attaching the shared memory.
- `SlabCache`: poisoning and zeroing; the disabled per-CPU caches; the general-purpose allocator on top; the byte links of the free list are a sequence here.
- `Arena`: overflow of offset plus size; the string and zeroing helpers.
- `CintParser`: `sizeof`, source positions, declarations and statements, the lexer, the evaluator. A call with more than 64 arguments writes past an array in the code; the model only marks it as an error.
- `IniConfig`: files, typed getters, arrays, cloning and merging, removal; entries whose value is a null pointer, which print like empty ones; characters are not bytes.
- IpcStream.Arrives: about a level-triggered registration, which the code does not make.
- `IpcStream`: end of file and read errors, which disconnect; handlers that disconnect. Bytes that come in while a call is reading count as there before it, without the further call they may cause.
- Other components (events, async I/O, REST, work queues with delays, the client library, examples).
