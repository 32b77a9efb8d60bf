# usrv: data structures and lifecycles, verified

A Dafny model of the core of usrv, a C++ framework for game servers, and proofs of what it keeps. Paths below are those of
the repository.

| file | models |
|---|---|
| SpscSteps.dfy | `SpscQueue` as two threads whose atomic steps interleave: load own index, load the other index (possibly stale), construct or move and destroy the slot, publish |
| SpscQueue.dfy | `SpscQueue` as an object, one call at a time, with its destructor |
| ObjectMap.dfy | `ObjectMap`: slots, the list of live ids threaded through them, the ring of free ids |
| HeapOrder.dfy, Heap.dfy | `Heap`: heap order on values; the class over the array and an `ObjectMap` of positions |
| ObjectPool.dfy | `ObjectPool` with its growth and shrinkage |
| Timers.dfy | `TimerUnit` over heap and pool |
| TimerOrder.dfy, TimerExample.dfy | when removals by id keep the timers in order, and what becomes of them if not; a run in which a due timer is missed |
| Server.dfy | `Server` and `Peer`: the receive coroutine, any number of send coroutines, deferred release |
| Links.dfy | one connection alone, as a reference, and that every connection of a `Server` follows it |
| Framing.dfy | the length-prefixed messages of `Peer::Send` and `Peer::_Recv` |
| Bridge.dfy, BridgeExample.dfy | the queue between the io thread and the unit's thread, with coroutines that retry; a run in which one is overtaken |
| Delivery.dfy | what the unit sees of the connections of a `Server` through that queue |
| Loop.dfy | the idle back-off of `Loop` |
| Common.dfy | sequences without repetition |

`dafny verify dfyconfig.toml` verifies the whole project.

A class whose methods change its fields is a Dafny class whose methods change the same fields. `View()` gives its abstract
value (a `Table`, `HeapState`, `Pool`, `World` or sequence), every method states the new `View()` as a function of the old one,
and the properties are proved about these values over all runs. A coroutine is a set of steps, one for each stretch between two
suspension points; a run is any sequence of steps, and a step that finds nothing to resume changes nothing.

## What the environment is taken to do

- Allocation numbers are at least 1 and queue sizes at least 2 (the source asserts the latter); inserted objects are not null;
  the comparison of a heap is a strict weak order.
- `vector::reserve` and `shrink_to_fit` are exact. `make_shared` yields an object never seen before.
- Integers of the source are unbounded here, except where noted: the length header (16 bits), the loop interval and cap (64 bits),
  `PARENT(0)`. `size_t(-1)` is the number -1.
- `co_spawn` from the io thread runs `_Recv` up to its first read before any other step of that peer, and `remote_endpoint()`
  does not throw in `_AddPeer`.
- A frame is written in one piece. The comment at src/util/common.h:51 gives the transfer limit as the reason for the size limit.
- An acquire load returns a value no older than the one the same thread saw before.
- `now` and all outcomes of reads and writes are inputs.

## Where the code does something else than it seems to promise

- `Heap::Pop(pos)` only shifts down. When the former last node is smaller than the parent of `pos`, heap order is lost:
  `PopOrdered` gives the exact condition. `CallTimer` and `RemoveTimer` remove by key, so after them a due timer can be fired
  late: `RemovalHarmlessIff` says that it can if and only if that condition fails, `UpdateMissesADueTimer` gives a run.
- `ObjectMap::Size()` is the number of free ids, or 0 when every id is free.
- `_QueueRecv` and `_QueueSend` retry each on its own, so after a failed Push a later message can overtake an earlier one:
  `BridgeConserves` and `RetryLosesOrder`.
- `Loop` spins after 64 idle rounds if its cap is 2^63 ns or more, and exceeds a cap of 0: `BackOffIff`.

## Model

| member | source | states |
|---|---|---|
| `SpscSteps.EveryInterleavingIsFifo` | src/util/spsc_queue.hpp:50-89 | over every interleaving of the single atomic steps of Push and Pop, with loads of the other side's index as stale as acquire allows: pushed is popped, then the value Pop has in hand, then the slots from read to write index; at most size-1 values are on the way |
| `SpscSteps.RunSafe` | src/util/spsc_queue.hpp:50-89 | in every such interleaving each step is legal (no construction over a live value, no move from raw memory, no access before the other thread's last access to the slot has been acquired) and the invariant holds after it |
| `SpscSteps.StepLegal` | src/util/spsc_queue.hpp:64-84 | an enabled step always finds its slot in the state the C++ object model asks for |
| `SpscSteps.StepInv` | src/util/spsc_queue.hpp:50-89 | each of the nine steps keeps the invariant on counters, indices and slots |
| `SpscSteps.Fifo` | src/util/spsc_queue.hpp:50-89 | in every reachable state, also in the middle of both calls, nothing is lost, duplicated or reordered |
| `SpscSteps.Occupancy` | src/util/spsc_queue.hpp:59-86 | a slot holds a value exactly when its counter is between the one being popped and the one being pushed; the two threads never work on the same slot; at most size-1 values exist |
| `SpscSteps.PushFailsIff` | src/util/spsc_queue.hpp:53-62 | Push answers false exactly when the queue was full as of the read index it loaded |
| `SpscSteps.PopFailsIff` | src/util/spsc_queue.hpp:72-76 | Pop answers false exactly when the queue was empty as of the write index it loaded |
| `SpscSteps.EmptyFullAsLoaded` | src/util/spsc_queue.hpp:91-103 | called by one of the two threads while the other is inside a call, Empty and Full answer exactly for the two indices they loaded, and an Empty that saw the present write index is true only of an empty queue |
| `SpscSteps.StartInv` | src/util/spsc_queue.hpp:26-32 | a new queue satisfies the invariant, for every size from 2 |
| `SpscQueues.SpscQueue.constructor` | src/util/spsc_queue.hpp:26-32 | a new queue is empty |
| `SpscQueues.SpscQueue.Push` | src/util/spsc_queue.hpp:50-68 | between calls: appends, or answers false and changes nothing exactly when size-1 values are held |
| `SpscQueues.SpscQueue.Pop` | src/util/spsc_queue.hpp:70-89 | between calls: takes the oldest value, or answers false exactly when there is none |
| `SpscQueues.SpscQueue.Empty` | src/util/spsc_queue.hpp:91-94 | true exactly when nothing is held |
| `SpscQueues.SpscQueue.Full` | src/util/spsc_queue.hpp:96-103 | true exactly when size-1 values are held |
| `SpscQueues.SpscQueue.Destroy` | src/util/spsc_queue.hpp:34-48 | the wrap-around loop destroys exactly the remaining values, each once, and leaves every slot raw |
| `SpscQueues.QuiescentIsObject` | src/util/spsc_queue.hpp:34-103 | when neither thread is inside a call, the state of the step system is a state of the object, holding what was pushed and not popped |
| `ObjectMaps.InsertWellFormed` | src/util/object_map.hpp:84-106 | an insertion issues an id that is not live and binds it to the object, last in order; keeps the live and free ids a partition of 0..capacity-1 with at least one free; moves no live object; and grows the table, by the allocation number, only with the last free id |
| `ObjectMaps.EraseWellFormed` | src/util/object_map.hpp:113-156 | an erasure keeps that partition and the capacity |
| `ObjectMaps.ErasesOnly` | src/util/object_map.hpp:113-156 | an erased id is gone and the last of the free ones, the other ids keep their objects, and an id that is not live changes nothing |
| `ObjectMaps.RunWellFormed` | src/util/object_map.hpp:84-156 | so does every run of insertions and erasures |
| `ObjectMaps.IssuedInFreeOrder` | src/util/object_map.hpp:84-106 | free ids form a first-in first-out queue: whatever a run does, it issues the ids free at its start in their order before any other |
| `ObjectMaps.ReissuedLast` | src/util/object_map.hpp:84-156 | an erased id comes back only after every id that was free at its erasure, and there is one, so never from the next Insert |
| `ObjectMaps.LiveNeverReissued` | src/util/object_map.hpp:84-106 | after any run the next id is not live |
| `ObjectMaps.LinkedLastLinks` | src/util/object_map.hpp:86-97 | linking behind the last id keeps the prev/next links a doubly linked list in insertion order |
| `ObjectMaps.UnlinkedLinks` | src/util/object_map.hpp:120-152 | unlinking at head, middle, tail or sole element leaves a doubly linked list without the id |
| `ObjectMaps.BypassUnlinks` | src/util/object_map.hpp:120-152 | the four branches of Erase together change the two neighbours and the slot, and nothing else |
| `ObjectMaps.RingAdvance` | src/util/object_map.hpp:99-103 | advancing head drops the first free id; it meets tail exactly when that was the last one, which is when the table grows |
| `ObjectMaps.RingAppend` | src/util/object_map.hpp:154-155 | writing at tail and advancing it appends to the queue of free ids |
| `ObjectMaps.GrownKeeps` | src/util/object_map.hpp:192-203 | growth keeps links and objects |
| `ObjectMaps.ObjectMap.constructor` | src/util/object_map.hpp:62-65 | a new map has no live id and the ids 0..alloc-1 free, in this order |
| `ObjectMaps.ObjectMap.Allocate` | src/util/object_map.hpp:192-203 | adds alloc blank slots and restarts the ring with exactly the new ids |
| `ObjectMaps.ObjectMap.Get` | src/util/object_map.hpp:69-72 | the object of a live id, null for a free one |
| `ObjectMaps.ObjectMap.Assign` | src/util/object_map.hpp:69-72 | writing through the returned pointer changes that object only |
| `ObjectMaps.ObjectMap.Find` | src/util/object_map.hpp:74-82 | true exactly for live ids, whatever number is asked for |
| `ObjectMaps.ObjectMap.LinkBack` | src/util/object_map.hpp:86-97 | links and fills the slot: the id is the last of the live ids, with its object |
| `ObjectMaps.ObjectMap.Insert` | src/util/object_map.hpp:84-106 | links, ring and slots after it represent the table with the first free id appended to the live ones |
| `ObjectMaps.ObjectMap.Unlink` | src/util/object_map.hpp:120-152 | the id is gone from the links, its slot is blank, the other objects stay |
| `ObjectMaps.ObjectMap.PushFree` | src/util/object_map.hpp:154-155 | the id is the last of the free ids |
| `ObjectMaps.ObjectMap.Erase` | src/util/object_map.hpp:113-156 | links, ring and slots after it represent the table without the id, the id last among the free ones; nothing for an id that is not live |
| `ObjectMaps.ObjectMap.Begin` | src/util/object_map.hpp:181-184 | the oldest live id, the invalid id if there is none |
| `ObjectMaps.ObjectMap.End` | src/util/object_map.hpp:186-189 | always the invalid id |
| `ObjectMaps.ObjectMap.Next` | src/util/object_map.hpp:34-38 | the live id inserted next |
| `ObjectMaps.ObjectMap.Enumerate` | src/util/object_map.hpp:34-39 | iteration from begin to end terminates and yields every live entry once, in insertion order |
| `ObjectMaps.ObjectMap.EraseIterator` | src/util/object_map.hpp:158-164 | erases and returns the successor |
| `ObjectMaps.ObjectMap.EndsMeetIff` | src/util/object_map.hpp:99-103 | between calls head and tail are equal exactly when no id is live |
| `ObjectMaps.ObjectMap.Size` | src/util/object_map.hpp:176-179 | not the number of live ids: the number of free ones, and 0 when all are free |
| `ObjectMaps.ObjectMap.SizeCountsLiveIff` | src/util/object_map.hpp:176-179 | it equals the number of live ids if and only if there is none or as many ids are free as live |
| `HeapOrder.PushOrdered` | src/util/heap.hpp:36-49 | Emplace keeps heap order, for every strict weak order |
| `HeapOrder.PushMultiset` | src/util/heap.hpp:36-49 | Emplace adds the new node and loses none |
| `HeapOrder.SiftUpOrdered` | src/util/heap.hpp:89-104 | shifting up repairs the one edge that may be violated |
| `HeapOrder.SiftDownEdges` | src/util/heap.hpp:106-131 | shifting down leaves every edge below in order |
| `HeapOrder.SiftDownTurn` | src/util/heap.hpp:111-127 | one turn of the loop: the right child only if it is smaller than the left one, and down unless the node is smaller than that child, so on ties it goes down and to the left |
| `HeapOrder.PushAtEnd` | src/util/heap.hpp:94-100 | a node that is not smaller than its parent stays at the end, also on a tie |
| `HeapOrder.PopOrdered` | src/util/heap.hpp:51-60 | from a heap-ordered state Pop(pos) restores heap order if and only if pos is the last position or the root, or the former last node is not smaller than the parent of pos; every edge but that one is always in order |
| `HeapOrder.EdgeAbove` | src/util/heap.hpp:51-60 | when the edge above pos is in order after Pop(pos) |
| `HeapOrder.MisfitStays` | src/util/heap.hpp:51-60 | a former last node that does not fit stays at pos, below a node it is smaller than |
| `HeapOrder.PopKeepsAbove` | src/util/heap.hpp:51-60 | a node above another stays above it when the top is popped, in any heap, ordered or not, unless it is the top or the other is the last |
| `HeapOrder.PopMultiset` | src/util/heap.hpp:51-60 | Pop(pos) loses exactly the node at pos |
| `HeapOrder.TopMinimal` | src/util/heap.hpp:62-65 | no node is smaller than Top |
| `HeapOrder.DrainSorts` | src/util/heap.hpp:51-65 | repeated Pop yields a non-decreasing permutation of what was put in |
| `HeapOrder.RunRefinesPriorityQueue` | src/util/heap.hpp:36-65 | over every run of Emplace and Pop at the root the heap answers as some priority queue holding the same multiset could |
| `Heaps.SwapOut` | src/util/heap.hpp:53-57 | after Pop's swap every key but the removed and the moved one is still where the table says |
| `Heaps.MoveHole` | src/util/heap.hpp:96-99 | one move of a shift loop keeps table and array in agreement except for the node in flight |
| `Heaps.CloseHole` | src/util/heap.hpp:101-102 | the last two writes of a shift loop restore the agreement |
| `Heaps.PlacedDetermined` | src/util/heap.hpp:95-102 | the array determines the table: agreement fixes every stored position |
| `Heaps.EmplaceKeys` | src/util/heap.hpp:36-49 | Emplace issues an unused key and keeps the others, all distinct |
| `Heaps.EmplaceAgrees` | src/util/heap.hpp:36-49 | key table and heap array agree after Emplace |
| `Heaps.PopAgrees` | src/util/heap.hpp:51-60 | they agree after Pop at any position, the last included; exactly the key at pos is gone, and it is the last of the free ids |
| `Heaps.HeapContents` | src/util/heap.hpp:36-60 | Emplace adds the object under the key it returns and nothing else; Pop takes away the node at pos and nothing else |
| `Heaps.RunAgrees` | src/util/heap.hpp:36-76 | they agree after every run of Emplace, Pop and PopByKey |
| `Heaps.Heap.constructor` | src/util/heap.hpp:29-32 | a new heap is empty |
| `Heaps.Heap.Allocate` | src/util/heap.hpp:84-87 | the array grows and keeps what it held |
| `Heaps.Heap.MoveNode` | src/util/heap.hpp:96-97 | the two writes of a loop turn, made in place, are a swap with the node in flight |
| `Heaps.Heap.Settle` | src/util/heap.hpp:101-102 | the two writes after either loop put the node in flight down, also in the cell behind the heap when the last node was removed |
| `Heaps.Heap.ShiftUp` | src/util/heap.hpp:89-104 | the loop that moves nodes and table entries in place computes shifting up by swaps and ends with table and array in agreement |
| `Heaps.Heap.ShiftDown` | src/util/heap.hpp:106-131 | the same for shifting down |
| `Heaps.Heap.Emplace` | src/util/heap.hpp:36-49 | array, table, ring and links after it represent the pushed heap; the key is the next free id |
| `Heaps.Heap.Pop` | src/util/heap.hpp:51-60 | returns the object at pos; array, table, ring and links represent the heap without it |
| `Heaps.Heap.Top` | src/util/heap.hpp:62-65 | the object in front |
| `Heaps.Heap.PopByKey` | src/util/heap.hpp:67-71 | returns and removes the object with that key |
| `Heaps.Heap.FindByKey` | src/util/heap.hpp:73-76 | true exactly for the keys in the array |
| `Heaps.Heap.Empty` | src/util/heap.hpp:78-81 | true exactly when no node is left |
| `ObjectPools.FreshPoolConsistent` | src/util/object_pool.hpp:18-21 | a new pool has alloc objects free |
| `ObjectPools.GetConsistent` | src/util/object_pool.hpp:25-36 | Get hands out no object that is outstanding and leaves between 1 and 2*alloc free |
| `ObjectPools.PutConsistent` | src/util/object_pool.hpp:38-47 | Put leaves between 1 and 2*alloc free, the returned object first among them even when the pool shrinks |
| `ObjectPools.PutThenGet` | src/util/object_pool.hpp:25-47 | the object returned last is handed out first |
| `ObjectPools.ResizesByAlloc` | src/util/object_pool.hpp:25-57 | Get grows the vector by alloc objects exactly when it hands out the last one, Put shrinks it by alloc exactly when 2*alloc are free |
| `ObjectPools.PoolRunSafe` | src/util/object_pool.hpp:25-57 | over every run from start-up these hold, and the first k calls resize the vector at most k/alloc times |
| `ObjectPools.ResizesAreRare` | src/util/object_pool.hpp:25-57 | any k calls in a row, from anywhere in a run, resize it at most (k+alloc-1)/alloc times |
| `ObjectPools.ObjectPool.constructor` | src/util/object_pool.hpp:18-21 | the vector represents the fresh pool |
| `ObjectPools.ObjectPool.Allocate` | src/util/object_pool.hpp:50-57 | appends alloc new objects behind the old ones |
| `ObjectPools.ObjectPool.Get` | src/util/object_pool.hpp:25-36 | the vector after it represents the pool without the object handed out, grown if that was the last |
| `ObjectPools.ObjectPool.Put` | src/util/object_pool.hpp:38-47 | the vector after it represents the pool with the object in front, shrunk at the back if too many are free |
| `Timers.CreateSafe` | src/units/timer_unit.cpp:55-61 | CreateTimer keeps table and heap in agreement, objects apart and every callback's fate unique |
| `Timers.BeginCallSafe` | src/units/timer_unit.cpp:44-46 | so does popping a timer and starting its callback, in Update or CallTimer |
| `Timers.EndCallSafe` | src/units/timer_unit.cpp:93-97 | so does returning the object when the callback is over |
| `Timers.CancelSafe` | src/units/timer_unit.cpp:79-97 | so does RemoveTimer |
| `Timers.RunWorld` | src/units/timer_unit.cpp:33-97 | every world a run of CreateTimer, Update, CallTimer and RemoveTimer reaches is safe, callbacks re-entering the unit included |
| `Timers.EveryTimerHasOneFate` | src/units/timer_unit.cpp:33-97 | over every run from start-up each timer is exactly one of pending, fired once, cancelled once; a queued timer keeps the deadline and callback it was queued with; its object is neither free nor being called |
| `Timers.StepLogs` | src/units/timer_unit.cpp:33-91 | Update and CallTimer call the callback of the timer they pop, RemoveTimer drops it without a call, and nothing else calls or drops one |
| `Timers.FiredAndCancelled` | src/units/timer_unit.cpp:33-91 | over every run from start-up the callbacks called are those of the timers popped by Update and CallTimer, the cancelled ones those of the timers popped by RemoveTimer, in that order |
| `Timers.StepQueue` | src/units/timer_unit.cpp:33-91 | CreateTimer queues one timer with the deadline asked for under the id it returns; a pop takes exactly the timer popped; nothing else changes the queue |
| `Timers.StepCalls` | src/units/timer_unit.cpp:44-97 | calls nest, and when one ends, or a timer is removed, its object is back in front of the pool |
| `Timers.PooledTimersAreIdle` | src/units/timer_unit.cpp:14-17 | over every run from start-up a timer object that is not in use holds no callback |
| `Timers.DeadUntilReissued` | src/units/timer_unit.cpp:33-91 | once a timer has been fired by Update, called or removed, its id answers false until a CreateTimer returns it again, whatever a run does |
| `Timers.AbsentUntilIssued` | src/units/timer_unit.cpp:63-91 | an id that answers false goes on doing so until a CreateTimer returns it |
| `Timers.TimerIdReissuedLast` | src/units/timer_unit.cpp:55-97 | it is returned again only after every id that was free at that moment, and there is one |
| `Timers.IssuedByTable` | src/units/timer_unit.cpp:55-61 | the ids returned are the ones the key table alone would issue for the same insertions and erasures |
| `Timers.TopIsDueByEntry` | src/units/timer_unit.cpp:39-42 | the loop's guard on the object agrees with the deadline the heap is ordered by |
| `Timers.TakeDueExact` | src/units/timer_unit.cpp:37-51 | from a heap-ordered state the loop takes timers in non-decreasing order of deadlines and leaves none that is due |
| `Timers.UpdateFiresExactlyTheDue` | src/units/timer_unit.cpp:33-53 | Update fires exactly the timers due, in non-decreasing order of their deadlines, and leaves exactly the later ones in heap order, when the heap was in order and callbacks leave the unit alone |
| `Timers.RemovalKeepsOrderIff` | src/util/heap.hpp:51-60 | removing the timer at a position keeps the heap in order if and only if the last timer fits there |
| `TimerOrder.StepOrdered` | src/units/timer_unit.cpp:33-91 | every step of the unit, CallTimer and RemoveTimer among them, keeps an ordered heap in order if and only if, where it pops a timer, the last one fits in its place |
| `TimerOrder.RunOrdered` | src/units/timer_unit.cpp:33-97 | over every run from an ordered heap in which the last timer fits at each removal the heap stays in order |
| `TimerOrder.EveryUpdateFiresTheDue` | src/units/timer_unit.cpp:33-97 | after every run from start-up in which the last timer fits at each removal, Update fires exactly the timers due, in non-decreasing order of their deadlines |
| `TimerOrder.MisfitIsMissed` | src/units/timer_unit.cpp:33-91 | a removal that does not fit always does harm: after as many later timers as there were, Update at the deadline of the misplaced timer leaves it queued |
| `TimerOrder.RemovalHarmlessIff` | src/units/timer_unit.cpp:33-91 | so, from an ordered heap: no run without further removals by id ever has an Update leave a timer due if and only if the last timer fits where the popped one was |
| `TimerOrder.FirstMisfitHarms` | src/units/timer_unit.cpp:33-97 | the same after every run from start-up in which each removal so far has fitted: the first that does not fit is the first that harms |
| `TimerOrder.OrderedHeapIsReached` | src/units/timer_unit.cpp:55-61 | every ordered heap numbered by position is reached from start-up by creating its timers in that order, whatever the allocation numbers |
| `TimerExample.PopInTheMiddleLosesTheMinimum` | src/util/heap.hpp:51-60 | a heap of twelve on which one Pop in the middle and three at the top leave Top not minimal |
| `TimerExample.UpdateMissesADueTimer` | src/units/timer_unit.cpp:33-91 | a run from start-up, for all allocation numbers: twelve CreateTimer, one RemoveTimer, an Update that fires three timers, and a later Update that fires nothing although a timer is due |
| `Timers.TimerUnit.constructor` | src/units/timer_unit.cpp:27-31 | a new unit is the fresh world |
| `Timers.TimerUnit.CreateTimer` | src/units/timer_unit.cpp:55-61 | returns the id; heap, pool and objects represent the world with the timer queued; no callback is called or dropped |
| `Timers.TimerUnit.CallTimer` | src/units/timer_unit.cpp:63-77 | false and nothing changed exactly for ids not queued; else the callback of the timer with that id has been called, none has been cancelled, and the object is returned |
| `Timers.TimerUnit.RemoveTimer` | src/units/timer_unit.cpp:79-91 | false and nothing changed exactly for ids not queued; else the callback of the timer with that id is cancelled, none has been called, and the object is returned |
| `Timers.TimerUnit.ReturnTimer` | src/units/timer_unit.cpp:93-97 | the callback is dropped and the object back in the pool |
| `Timers.TimerUnit.FireTop` | src/units/timer_unit.cpp:44-50 | one turn of the loop calls the callback of the timer in front, cancels none, and returns its object |
| `Timers.TimerUnit.Update` | src/units/timer_unit.cpp:33-53 | terminates, does what the turns do one after another, and returns true exactly when a timer was fired |
| `Servers.AddPeerObjects` | src/units/server_unit.cpp:366-405 | accepting a connection keeps peers, table, pool and coroutines in order |
| `Servers.DisconnectObjects` | src/units/server_unit.cpp:357-364 | so does a disconnect by any id |
| `Servers.SendStartObjects` | src/units/server_unit.cpp:297-305 | so does the start of a send to any id |
| `Servers.SendDoneObjects` | src/units/server_unit.cpp:447-459 | so does the completion of a write, in success or failure; the peer is then still in the table |
| `Servers.RecvHeadObjects` | src/units/server_unit.cpp:480-482 | so does the completion of a header read, on a closed socket too |
| `Servers.RecvBodyObjects` | src/units/server_unit.cpp:484-486 | so does the completion of a body read; the loop's guard is never false |
| `Servers.RecvFailObjects` | src/units/server_unit.cpp:488-497 | so does a failed read |
| `Servers.DelPeerTable` | src/units/server_unit.cpp:387-394 | the released object goes back to the pool and is the next one handed out, even if the pool shrinks; its id is free |
| `Servers.RunServer` | src/units/server_unit.cpp:357-507 | every world a run of connection events reaches is safe |
| `Servers.EveryConnectionTellsItsStory` | src/units/server_unit.cpp:366-394 | over every run each connection emits CONN once, then RECV events, then DISC once, the last exactly when its peer has gone back to the pool, which happens to each once |
| `Servers.EveryPeerIsInOrder` | src/units/server_unit.cpp:397-507 | over every run a peer in the table is stored under its own id, is wait-to-release exactly when its socket is closed, counts exactly its coroutines, and never waits for release without a coroutine under way; no coroutine belongs to any other object |
| `Links.StepFollowsLink` | src/units/server_unit.cpp:357-507 | every step does to every connection what the same action does to a connection alone: a reference with one socket, a count of writes, one read and a count of messages, which is over when it is closed with nothing under way |
| `Links.EveryConnectionFollowsItsLink` | src/units/server_unit.cpp:366-507 | over every run from start-up every connection is, from its acceptance on, in the state the reference reaches by the same actions, and its peer has gone back to the pool exactly when the reference is over |
| `Links.WhatBecomesOfAConnection` | src/units/server_unit.cpp:297-507 | so over every run: a connection nobody disconnects and whose reads and writes succeed stays open and is never returned; the writes under way are the sends to it less the writes completed; the messages reported are exactly the bodies read |
| `Links.StepSays` | src/units/server_unit.cpp:366-507 | what each action makes the server say: CONN for an acceptance, RECV for a body read, DISC for the completion that ends a connection, and nothing else |
| `Links.WriteOutcome` | src/units/server_unit.cpp:447-459 | a write that succeeds leaves the socket as it was, one that fails leaves it closed |
| `Links.SendStarts` | src/units/server_unit.cpp:297-305 | a send to the id of a peer starts one write on it |
| `Links.ReadsAlternate` | src/units/server_unit.cpp:476-486 | after the header of an open peer its body is read, after the body, which is reported, the next header |
| `Links.PooledPeersAreBare` | src/units/server_unit.cpp:430-435 | over every run from start-up a peer in the pool has let go of its socket, its server and its id |
| `Servers.OnlyTheLastReleases` | src/units/server_unit.cpp:457-507 | a peer goes back to the pool only at the end of its last coroutine, when it sends and receives nothing |
| `Servers.StoppedStep` | src/units/server_unit.cpp:408-507 | any step but a new send takes at most one coroutine off a stopped peer, and releases it exactly when none is left |
| `Servers.StoppedPeerDrains` | src/units/server_unit.cpp:408-507 | once stopped and sent nothing more, a peer is released after exactly as many completions as it has coroutines, in whatever order they and anything else happen |
| `Servers.StopLeavesCoroutines` | src/units/server_unit.cpp:408-428 | stopping an open peer leaves it with as many coroutines as it has sends under way, and one more, the receiver |
| `Servers.Server.constructor` | src/units/server_unit.cpp:366-368 | a new server is the fresh world |
| `Servers.Server.Accept` | src/units/server_unit.cpp:366-405 | table, pool and fields represent the world with the connection; the id is the next free one |
| `Servers.Server.StopById` | src/units/server_unit.cpp:357-428 | closes the socket of the peer with that id and marks it for release; nothing for an id that is not live or a socket already closed |
| `Servers.Server.Delete` | src/units/server_unit.cpp:387-394 | the peer's fields are reset, the object is in the pool, the id is free, DISC is emitted |
| `Servers.Server.Check` | src/units/server_unit.cpp:500-507 | releases the peer exactly when it waits for release and has no coroutine |
| `Servers.Server.StartSend` | src/units/server_unit.cpp:297-305 | true exactly for a live id; then one write more is under way on its peer; nothing for another id |
| `Servers.Server.Written` | src/units/server_unit.cpp:447-459 | after a success the socket is as it was, after a failure it is closed; the send is uncounted and the peer checked |
| `Servers.Server.EndRecv` | src/units/server_unit.cpp:496-497 | the receive coroutine is over, the socket as it was, and the peer checked |
| `Servers.Server.HeadRead` | src/units/server_unit.cpp:480-483 | on an open socket the body is waited for next, on a closed one the coroutine ends |
| `Servers.Server.BodyRead` | src/units/server_unit.cpp:484-486 | the message is reported, and the next header is waited for |
| `Servers.Server.ReadFailed` | src/units/server_unit.cpp:488-497 | the socket is closed and the coroutine at its end, or the peer released |
| `Framing.LengthOfHeader` | src/units/server_unit.cpp:445-446 | the two header bytes give back the length modulo 65536 |
| `Framing.FrameLayout` | src/units/server_unit.cpp:442-446 | on the wire are two bytes of length in network order and then the message |
| `Framing.RoundTrip` | src/units/server_unit.cpp:442-486 | framing and concatenation of any list of messages the header can describe is inverted exactly |
| `Framing.RoundTripIff` | src/units/server_unit.cpp:226-230 | a single message survives if and only if it is shorter than 65536 bytes |
| `Framing.DecodeResumes` | src/units/server_unit.cpp:476-486 | decoding can stop anywhere in the stream and go on with the bytes left over |
| `Framing.PrefixDecodesToPrefix` | src/units/server_unit.cpp:476-486 | every prefix of the stream decodes to a prefix of the messages |
| `Framing.ChunkingIrrelevant` | src/units/server_unit.cpp:476-486 | how the stream is cut into chunks makes no difference |
| `Framing.ReceivedIsSent` | src/units/server_unit.cpp:226-486 | for messages within Send's limit, any chunking of the framed stream is received as exactly those messages |
| `Framing.Accepts` | src/units/server_unit.cpp:226-230 | Send accepts a message exactly up to 65534 bytes, that is if its frame fits one transfer of 65536, and what it accepts survives the framing |
| `Framing.Frame` | src/units/server_unit.cpp:442-446 | growing, moving up and writing the header in front yields the header followed by the message |
| `Framing.Reader.constructor` | src/units/server_unit.cpp:471-478 | a new receiver has nothing pending |
| `Framing.Reader.Feed` | src/units/server_unit.cpp:476-486 | the two alternating reads deliver exactly the messages complete so far and keep exactly the bytes left over |
| `Bridge.NextConserves` | src/units/server_unit.cpp:275-295 | each step moves a message from one place to another or leaves it |
| `Bridge.PublishOrder` | src/units/server_unit.cpp:275-283 | a publication keeps the order of spawning among the chosen messages exactly when no older one of them waits |
| `Bridge.BridgeConserves` | src/units/server_unit.cpp:275-295 | over every schedule of retrying coroutines, drains and stale index loads: each message spawned is waiting, inside Push, queued or delivered, in one place and once, unmodified; if no Push has failed, deliveries are in the order of the calls of Push; pushes are in the order of spawning if and only if none was published while an older one waited |
| `Bridge.PushedInOrderIff` | src/units/server_unit.cpp:275-283 | for any choice of messages, such as those of one connection: they are pushed in the order of spawning if and only if none of them was published while an older one waited |
| `Delivery.DeliveredInOrder` | src/units/server_unit.cpp:275-295 | then its deliveries are a beginning of its events in the order in which they happened |
| `Delivery.UnitSeesTheStory` | src/units/server_unit.cpp:212-295 | at any moment of any run of a server and of the bridge behind it, what the unit has been delivered of a connection is a beginning of CONN, RECV events, DISC, unless one of its events was published while an older one waited |
| `Bridge.Update` | src/units/server_unit.cpp:285-295 | the drain loop delivers everything queued, oldest first, and reports busy exactly when there was something |
| `BridgeExample.RetryLosesOrder` | src/units/server_unit.cpp:275-283 | a run in which a message is pushed while an older one sleeps after a failed Push, so that neither order holds |
| `Loops.BackOffAt` | src/components/loop.hpp:45-74 | for a cap from 1 to 2^63-1: 0 after a busy round, on the n-th idle round min(2^(n-1), cap), or min(2^n, cap) if no round was busy yet |
| `Loops.NeverStuck` | src/components/loop.hpp:45-74 | for these caps the interval is 0 exactly after a busy round, and never above the cap |
| `Loops.FixedWaits` | src/components/loop.hpp:52-55 | in fixed mode every round waits the cap |
| `Loops.BackOffIff` | src/components/loop.hpp:45-74 | the back-off is as intended on every course of rounds if and only if the cap is from 1 to 2^63-1 |
| `Loops.WrapsToZero` | src/components/loop.hpp:70-71 | with a larger cap the 64th idle round wraps to 0 |
| `Loops.ZeroCapIsExceeded` | src/components/loop.hpp:64-67 | with cap 0 the first idle round after a busy one waits 1 |
| `Loops.Loop.constructor` | src/components/loop.hpp:87 | the interval starts at the minimum |
| `Loops.Loop.Init` | src/components/loop.hpp:27-31 | a cap in milliseconds is a million times that in nanoseconds, as long as it fits 64 bits, and wraps if not |
| `Loops.Loop.Round` | src/components/loop.hpp:52-74 | one round sets the interval from what the update function answered in it and in the one before |
| `Loops.Loop.Update` | src/components/loop.hpp:43-83 | the waits of any number of rounds, in fixed and in adaptive mode |

## Left out

- Timer and Peer objects are records in a map from object identity to fields, kept by TimerUnit and Server, because the pool and the map of the source are generic over them and create them with `make_shared<T>()`; aliasing of shared pointers is identity, and their reference counts are not modelled.
- Heap cells at and beyond `_size`, which keep stale copies of nodes, are part of the class but nothing is said about them.
- Timers.TimerUnit.Update: the class method takes callbacks not to touch the unit; callbacks that do are covered by the runs of RunWorld, in which any action may come before the return of a callback.
- Timers.TimerUnit.CallTimer: the same.
- Timers.TimerUnit.FireTop: the same.
- Timers.TimerUnit.CreateTimer: the sum of now and delay is unbounded, so overflow of the system clock's representation is not modelled.
- Servers.Server.StartSend: `_sending` is unbounded, so the wrap-around of its 32 bits is not modelled.
- SpscQueues.SpscQueue.Empty: the class method is stated between calls; EmptyFullAsLoaded covers a call by one of the two threads while the other is inside one. A third thread is not covered.
- SpscQueues.SpscQueue.Full: the same.
- Bridge.Update: stated for a drain during which nothing is pushed; BridgeConserves covers drains interleaved with pushes. The send direction is the same model, delivery being the spawning of `_Send`.
- Bridge: the wake-up of retrying coroutines by their shared timer is not a step; a waiting coroutine may try at any moment, so every wake-up order is covered.
- Loops.Loop.Update: the endless loop is cut after any finite number of rounds; the waiting itself is environment.
- Exceptions thrown by callbacks.
- The contents of CONN messages, `Ip`, `Port`, `_Listen`, `_Connect`, the resolver and error logging: only that an operation completes, in success or failure.
- `Server::Disconnect` captures its argument by reference; here the id is passed by value.
- `ObjectMap::Clear`, after which the map has no capacity and cannot be used, the iterator's `operator=`, and `ServerUnit::PeersNum`, which always answers 0.
- The round robin of `ServerUnit::Connect`, LoggerUnit, LuaUnit, the interfaces, Singleton, signals and the registration of units: plumbing with little logic of its own.
- asio, LuaBridge and Lua.
