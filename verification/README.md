# Tamako in Dafny

Tamako is a small 32-bit kernel.  This project models the parts of it that keep
long-lived state and proves what every call of them keeps:

- **Frames** (`Bits`, `BuddyBlocks`, `BuddyCanonical`, `BuddySteps`, `Buddy`):
  the buddy allocator over the flag words of the frame table and the eleven
  lists.  Blocks and a *hole*, the part a call is working on, tile the managed
  frames; outside a call the hole is empty.  From this it follows that the free
  blocks are the maximal aligned blocks of free frames, so that the lists depend
  on the free frames alone.
- **Trees** (`RbShape`, `RbTree`, `RbWords`): the red-black tree with parent
  links and one shared sentinel whose parent is overwritten by a deletion.
  `RbShape` holds the trees and contexts as values, `RbTree` the nodes in memory
  and the code that turns their links, proved to do what the values say.
- **Objects** (`KmallocState`, `KmallocInv`, `KmallocSteps`, `KmallocRings`,
  `KmallocEffects`, `Kmalloc`): the bucket allocator with its object caches.
  Memory is a map of words; free lists and caches are threaded through the
  objects themselves.
- **Lists** (`Seqs`, `Rings`, `TaskQueues`, `QueueRings`): circular lists of
  nodes in memory, the traversal that moves nodes while it goes, and the queues
  of the scheduler on rings with one node per task.
- **Tasks** (`Bitmaps`, `Pids`, `RoundRobin`, `Tasks`, `Steps`, `Runs`,
  `Effects`, `SemaphoreRuns`, `TaskRuns`, `Kernel`): process numbers, the 64 ready queues with their two bitmaps, and
  the life of tasks.  `Steps` gives each entry point as a function on states,
  `Effects` says field by field what each of them does and that nothing else
  changes, and `Runs`, `SemaphoreRuns` and `TaskRuns` speak about all sequences
  of them.  The class `Kernel` does the same work on tasks and semaphores in
  memory: each of its methods is proved to change the state by exactly one step
  of `Runs.Apply`.
- **Numbers** (`Printf`, `Readings`): the number printer, the decimal reader, and
  an independent reader that every output of the printer is put to.

A call of an allocator, a queue, the scheduler or a semaphore is one step;
nothing interrupts it.

## Where the code differs from its comments

- `ceil_order` is commented to return MAX_ORDER + 1 above the largest order; the
  loop returns 11 up to 2048 frames and 12 above (`Buddy.CeilOrderLoop`).
- `free_cache` is commented to put a released object at the head of the free
  list of its page.  The two stores put back what was there, so a released
  object is on no free list, in any state (`Kmalloc.NeverRejoins`,
  `Kmalloc.LostObject`).  It can be used again exactly if its page is given
  back, which happens exactly if no other object of the page is in use: the
  counter of the page's descriptor is 1 before the call (`Kmalloc.Kmalloc.ReleaseOne`).
- `kmalloc` of more than 65535 bytes scans past the end of its table
  (`Kmalloc.ScanStops`); the methods require at most that.
- `sem_post` at a count of 2^31 - 1 breaks the books; below it they hold
  (`Steps.PostBalance`).
- `sleep(0)` sleeps for 2^32 ticks (`Runs.WokenInTime`).
- `wait()` of a task without children never ends (`TaskRuns.ChildlessForEver`).
- `skip_atoi` of a number from 2^31 on returns its signed reading
  (`Printf.ReadsBack`).
- The parent of a tree node reads back exactly if it is a multiple of four
  (`RbWords.Header.SetParent`), which the packed structure does not enforce.

## Assumptions

- Allocations ask for at least one frame; the count given to `buddy_init`
  reaches the next multiple of 1024 frames, since the code subtracts without a
  test; a release names one outstanding allocation.
- `kfree` is called for live objects.  Pages that the page allocator supplies
  are not in use, and are given to `kmalloc` as arguments.  A holder writes only
  into its own object.
- The comparison of a tree is a function of two nodes; order is claimed where its
  sign is a strict weak order on the nodes of the tree.
- The idle task never blocks or ends.  Priorities are below 64.  A process
  number is free when a thread is created.  `wakeup` is called for sleeping
  tasks.  Semaphores start at a count below 2^31 and are posted below 2^31 - 1.

## Model

| member | source | states |
|---|---|---|
| Buddy.CeilOrderLoop | mm/buddy.c:70-77 | the loop finds the least order with 2^order >= n up to 2048 frames and stops at 12 above; the result is at most MAX_ORDER exactly for n <= 1024 |
| Bits.XorPow2 | mm/buddy.c:54-57 | the index with bit k flipped: 2^k is taken off if bit k is set and added otherwise |
| Bits.BuddyPair | mm/buddy.c:54-57 | buddies of an aligned block: each is the other's buddy, both are aligned and adjacent, and `&` of the two is where the block of twice the size starts |
| Bits.AndBuddy | mm/buddy.c:288-290 | of an index and its buddy, `&` selects the one with bit k clear |
| Buddy.Allocator.Init | mm/buddy.c:79-152 | buddy_init succeeds exactly for page-aligned addresses; the lists then tile exactly the n given frames, all free, none outstanding; a refused call changes nothing |
| Buddy.Allocator.FillHead | mm/buddy.c:113-129 | the frames up to the next multiple of 1024 become blocks of growing order that leave no gap |
| Buddy.Allocator.FillTail | mm/buddy.c:135-149 | the remaining frames become blocks of falling order that leave no gap |
| Buddy.Allocator.AllocBlock | mm/buddy.c:154-194 | fails exactly if no list of that or a higher order has a block; otherwise takes the first block of the first such list, and returns all of it but 2^order frames in halves |
| Buddy.Allocator.AllocFrames | mm/buddy.c:196-254 | fails exactly if n > 1024 or no aligned run of 2^ceil_order(n) free frames exists; otherwise returns n contiguous frames that were free, the others stay free, and the number of free frames falls by n |
| Buddy.Allocator.FreeBlock | mm/buddy.c:256-310 | merges the block with its free buddies upward; all blocks but the freed one stay, its frames become free, and no two free buddies are left |
| Buddy.Allocator.FreeFramesAt | mm/buddy.c:312-348 | accepts exactly page-aligned addresses in range with n <= 1024; an outstanding allocation is freed whole although its pieces may merge with each other and with their surroundings on the way |
| BuddyBlocks.HeadOf | mm/buddy.c:79-348 | in every reachable state each managed frame outside the part still being filled lies in exactly one block |
| BuddyBlocks.Disjoint | mm/buddy.c:79-348 | blocks never overlap |
| BuddyCanonical.MergeTest | mm/buddy.c:276-280 | the merge test, which reads raw flag bits that frames inside blocks keep from the past, succeeds exactly on heads of free blocks of that order, which are in the list that is edited |
| BuddyCanonical.Canonical | mm/buddy.c:79-348 | list od holds a frame exactly if it starts a maximal aligned block of free frames, among orders up to MAX_ORDER |
| BuddyCanonical.Available | mm/buddy.c:156-161 | some list from order od on has a block exactly if some aligned run of 2^od frames is free |
| BuddyCanonical.Determined | mm/buddy.c:196-348 | two states over the same free frames have the same lists up to order, whatever calls led to them |
| Buddy.AllocThenFree | mm/buddy.c:196-348 | an allocation followed by its release restores every list up to order |
| Buddy.FreeInTwoOrders | mm/buddy.c:312-348 | releasing the same allocations in two different orders gives the same lists up to order |
| Buddy.AllReturned | mm/buddy.c:79-348 | once nothing is outstanding all managed frames are free and the lists are, up to order, those buddy_init built |
| RbTree.RbTree.RotateLeft | lib/rbtree.c:5-24 | on the heap, with parent links and the shared sentinel: the subtree at x becomes its left rotation, everything around stays |
| RbTree.RbTree.RotateRight | lib/rbtree.c:26-45 | the mirror image |
| RbShape.RotLSeq | lib/rbtree.c:5-24 | a left rotation keeps the in-order sequence |
| RbShape.RotRSeq | lib/rbtree.c:26-45 | a right rotation keeps the in-order sequence |
| RbTree.RbTree.Transplant | lib/rbtree.c:63-75 | the subtree at y takes the place of the one at x; the parent of y is overwritten also if y is the shared sentinel |
| RbTree.RbTree.FindPlace | lib/rbtree.c:122-132 | the descent ends at the leaf where nd belongs and takes at most 2 log2(n + 1) steps |
| RbTree.RbTree.InsertFixup | lib/rbtree.c:77-118 | from a tree with one red-red pair to a red-black tree with the same sequence of nodes, ending for every shape |
| RbShape.RecoloredState | lib/rbtree.c:81-86 | a red uncle: the pair moves up two levels, all else keeps its colours and black heights |
| RbShape.OuterState | lib/rbtree.c:93-95 | a black uncle: one rotation at the grandparent ends the repair |
| RbTree.RbTree.Insert | lib/rbtree.c:120-146 | keeps all red-black invariants; the sequence gains exactly nd; for a strict weak order nd goes behind all nodes that are not greater, so equal keys keep their order of arrival |
| RbTree.RbTree.DeleteFixup | lib/rbtree.c:148-205 | from a tree with one deficient node, which may be the sentinel, to a red-black tree with the same sequence of nodes, ending for every shape |
| RbShape.SiblingIsReal | lib/rbtree.c:150-158 | a black deficient node below the root has a real sibling, and real nephews if the sibling is red; hence the left-right test works even for the sentinel |
| RbShape.SwapRedState | lib/rbtree.c:153-158 | a red sibling: after the rotation the deficient node has a black sibling, with the sequence unchanged |
| RbShape.PushUpState | lib/rbtree.c:159-162 | a black sibling with black children: the deficiency moves to the parent |
| RbShape.TurnSiblingState | lib/rbtree.c:164-169 | only the inner nephew is red: a rotation at the sibling makes the outer one red |
| RbShape.RepairedState | lib/rbtree.c:170-174 | the outer nephew is red: one rotation ends the repair |
| RbTree.RbTree.LeftMost | lib/rbtree.c:47-53 | the first node below n, at the end of a path of left links |
| RbTree.RbTree.MoveUp | lib/rbtree.c:220-236 | the successor takes over the place, the links and the colour of the deleted node, in both cases of the code |
| RbTree.RbTree.Delete | lib/rbtree.c:207-240 | keeps all red-black invariants and removes exactly nd from the sequence; no node is copied into another |
| RbTree.RbTree.First | lib/rbtree.c:268-274 | the first node, or the sentinel of an empty tree |
| RbTree.RbTree.Last | lib/rbtree.c:276-282 | the last node, or the sentinel of an empty tree |
| RbTree.RbTree.Next | lib/rbtree.c:255-266 | the next node of the sequence, or the sentinel after the last |
| RbTree.RbTree.Prev | lib/rbtree.c:242-253 | the node before, or the sentinel before the first |
| RbTree.RbTree.Forward | lib/rbtree.c:255-274 | from rb_first on, rb_next visits the whole sequence once and ends at the sentinel |
| RbTree.RbTree.Backward | lib/rbtree.c:242-282 | from rb_last on, rb_prev visits the whole sequence backwards |
| RbTree.RbTree.NextThenPrev | lib/rbtree.c:242-266 | rb_prev undoes rb_next |
| RbTree.RbTree.PrevThenNext | lib/rbtree.c:242-266 | rb_next undoes rb_prev |
| RbShape.HeightLogarithmic | lib/rbtree.c:77-240 | the height of a tree of n nodes is at most 2 log2(n + 1) |
| RbWords.Header.SetParent | include/rbtree.h:53-56 | the parent reads back as written exactly for addresses that are multiples of four, and then the colour stays |
| RbWords.Header.SetColor | include/rbtree.h:58-61 | the colour changes, the parent stays |
| RbWords.Header.SetParentColor | include/rbtree.h:63-66 | both read back as written exactly for addresses that are multiples of four |
| Kmalloc.ScanStops | lib/kmalloc.c:101-103 | the scan of the size table stays inside the table exactly for requests up to its end mark, 65535 |
| Kmalloc.FindSize | lib/kmalloc.c:99-103 | the smallest entry of the table that is large enough |
| KmallocInv.Disjoint | lib/kmalloc.c:96-287 | live objects overlap no other live, cached or free object, and lie within one page |
| Kmalloc.RequestsDisjoint | lib/kmalloc.c:96-287 | at any later time the stretches [a, a + request) of live objects do not overlap, and each lies in one page |
| KmallocState.PopHeadRing | lib/kmalloc.c:107-124 | unlinking the head of a cache through two words leaves the ring of the others and touches no other object |
| KmallocState.PushHeadRing | lib/kmalloc.c:219-233 | a freed object enters in front of the ring, and no other object is touched |
| KmallocState.PopTailRing | lib/kmalloc.c:246-252 | the oldest object leaves the ring, and no other object is touched |
| KmallocSteps.ThreadChain | lib/kmalloc.c:181-187 | the loop over a new page links exactly its objects into a free list |
| KmallocRings.GrownKeeps | lib/kmalloc.c:149-187 | a new descriptor comes in as a copy of the head; ring, back pointers, unused descriptors and pages stay consistent |
| KmallocRings.DroppedKeeps | lib/kmalloc.c:263-285 | a descriptor goes by being overwritten with its successor; ring, back pointers and pages stay consistent, and the page has no object in use |
| Kmalloc.Kmalloc.constructor | lib/kmalloc.c:24-64 | the static tables: nothing held, nothing live |
| Kmalloc.Kmalloc.BucketInit | lib/kmalloc.c:76-94 | the descriptors of 16 bytes that fill the page, exactly, are chained into the list of unused ones |
| Kmalloc.Kmalloc.FindDesc | lib/kmalloc.c:134-140 | the first descriptor of the ring with a free object, or the last one if none has |
| Kmalloc.Kmalloc.NewPage | lib/kmalloc.c:142-188 | an empty or exhausted bucket gets the page, of which exactly the addresses that are multiples of the object size are free; words of live objects stay |
| Kmalloc.Kmalloc.Alloc | lib/kmalloc.c:96-197 | refuses exactly requests above 4096; otherwise hands out an object of the least class that is large enough, live from now on and not live before: the last one freed of its class if any is cached, with both words cleared, else the first free one of a page of the class, else the first of the new page; nothing else changes, neither in the other pages nor in any word of an object that was live |
| Kmalloc.Kmalloc.Free | lib/kmalloc.c:199-235 | exactly va ceases to be live and is the next one to be handed out of its class; pages, free lists and the words of the other live objects stay |
| Kmalloc.FreeThenAlloc | lib/kmalloc.c:96-235 | a freed object is what the next request of its class gets, with its first two words cleared, and everything is as before |
| Kmalloc.Kmalloc.Write | lib/kmalloc.c:96-287 | whatever the holder of a live object writes into it, the allocator stays consistent |
| Kmalloc.Kmalloc.ReleaseOne | lib/kmalloc.c:245-286 | the oldest cached object is given up; its page is given back exactly if it was the last one in use there, and otherwise keeps its free list; the object is on no free list afterwards, so it can be used again exactly in that case |
| Kmalloc.NeverRejoins | lib/kmalloc.c:258-260 | the two stores leave the free list as it was: a released object is on no free list, for every state |
| Kmalloc.LostObject | lib/kmalloc.c:258-262 | a concrete state in which the released object is neither live, cached nor free while its page is still held |
| Kmalloc.Kmalloc.EmptyCache | lib/kmalloc.c:244-286 | one cache is emptied; every live object stays live, with its class and its words; exactly the returned pages are gone, each was held and is returned once |
| Kmalloc.Kmalloc.FreeCache | lib/kmalloc.c:237-294 | all caches are empty afterwards; the pages still held are exactly those with a live object, what is in use there is live, and they keep their class and their free list; the others are returned once each; every word of every live object stays |
| KmallocEffects.OnlyLive | lib/kmalloc.c:237-294 | as every page held has an object in use, with empty caches the pages held are those with a live object |
| KmallocEffects.PageFilled | lib/kmalloc.c:181-187 | the objects of a new page are exactly the multiples of the size in it |
| KmallocEffects.LiveUndisturbed | lib/kmalloc.c:96-287 | changes of cached or free objects or of pages that are not held leave every word of every live object alone |
| Rings.Add | include/list.h:35-38 | the node comes right behind the head |
| Rings.AddTail | include/list.h:40-43 | the node comes at the end of the ring |
| Rings.Del | include/list.h:45-48 | the node leaves the ring and keeps its own links |
| Rings.Reads | include/list.h:50-63 | a list is empty exactly if its head points to itself; first and last are the neighbours of the head |
| Rings.MovePicked | include/list.h:68-69 | the traversal that moves nodes while it goes: every node is met once, those that are to go end up at the ends of their lists in order, the others stay in order, and all lists are rings again |
| Rings.MoveWhole | kernel/sched.c:57-63 | the traversal of task_exit: all nodes of one list go to the end of another one, in order |
| TaskQueues.TaskQueue.Enqueue | kernel/task_queue.c:11-17 | the node is the last of the queue |
| TaskQueues.TaskQueue.Dequeue | kernel/task_queue.c:19-25 | exactly this node leaves, from wherever it stands |
| TaskQueues.TaskQueue.PickNext | kernel/task_queue.c:27-36 | the first node, which stays, or NULL |
| QueueRings.QueuesSeparate | kernel/sched.c:26-230 | as no task is in two queues, the rings threaded through one node per task are disjoint |
| QueueRings.Requeue | kernel/sched.c:157-180 | unlinking the node of a task and linking it elsewhere carries out the move of the task between queues |
| QueueRings.Turn | kernel/sched_rr.c:83-85 | unlinking the first node and linking it at the end carries out the rotation |
| QueueRings.WakeDue | kernel/sched.c:138-150 | the traversal of sched_tick over rings: afterwards they are the rings of the queues in which exactly the due sleepers have moved |
| Pids.PidMap.Alloc | kernel/pid.c:33-62 | the least free number; refused exactly if all 256 are taken; the group word marks exactly the full rows |
| Pids.PidMap.Free | kernel/pid.c:64-71 | exactly this number becomes free |
| RoundRobin.RoundRobin.Enqueue | kernel/sched_rr.c:51-60 | the task is the last of its queue; both bitmaps agree with the emptiness of the 64 queues |
| RoundRobin.RoundRobin.Dequeue | kernel/sched_rr.c:62-75 | exactly this task leaves its queue; both bitmaps agree with the emptiness of the 64 queues |
| RoundRobin.Lookup | kernel/sched_rr.c:80-82 | the two table lookups find the same queue as a linear scan for the first nonempty one |
| RoundRobin.RoundRobin.PickNext | kernel/sched_rr.c:77-89 | the first task of the first nonempty queue, which is rotated |
| RoundRobin.RoundRobin.PickRound | kernel/sched_rr.c:77-89 | as many picks as the top queue has tasks return each of them once, in order |
| Runs.InitialKeeps | kernel/sched.c:100-113 | the state after sched_init satisfies the invariant |
| Runs.ApplyKeeps | kernel/sched.c:26-248 | every entry point, called as it may be, is defined and keeps the invariant |
| Runs.Whereabouts | kernel/sched.c:26-248 | in every reachable state a task is in the queue that its status, priority and semaphore name, once, and in no other |
| Runs.FamilyTree | kernel/sched.c:33-37 | in every reachable state the parents of the tasks that are not zombies form a tree rooted at idle, and each such task is on the children list of its parent only, once |
| Runs.DistinctNumbers | kernel/sched.c:28-29 | two tasks never share a process number |
| Tasks.Adopted | kernel/sched.c:48-63 | when a task ends, the tree stays a tree and its children follow the other children of its parent, in order |
| Tasks.PickIsReady | kernel/sched.c:118-126 | as long as idle is ready, the choice of the scheduler is defined and ready |
| Steps.TickRecords | kernel/sched.c:140-142 | one tick counts every sleeper down once, and changes no other record |
| Runs.TickWakes | kernel/sched.c:128-155 | one tick takes exactly the due sleepers out of the sleep queue, each to the end of its ready queue, in queue order, although nodes move during the traversal; then the scheduler picks exactly if one was due or the time slice was over |
| Runs.SleepsThrough | kernel/sched.c:128-173 | no entry point but a tick or its own wakeup changes the status or the count of a sleeper |
| Runs.SleepRun | kernel/sched.c:128-173 | over any run a sleeper has as many ticks fewer before it as there were |
| Runs.WokenInTime | kernel/sched.c:128-173 | over any run a task that sleeps k >= 1 ticks is ready after the k-th following tick unless woken before; for k = 0 it takes 2^32 ticks |
| Steps.WaitBalance | include/semaphore.h:23-39 | sem_wait takes a unit if there is one, and otherwise the task is the last of the queue; the count stays supply less demand and the queue as long as it is below zero |
| Steps.PostBalance | include/semaphore.h:41-57 | sem_post keeps the books exactly if the count is below 2^31 - 1; the slow path runs exactly if somebody waits, and releases the first to have come |
| Steps.Throughput | kernel/semaphore.c:4-21 | the waits that have got through are min(waits, initial count + posts), in order of arrival |
| Steps.QueueBound | kernel/semaphore.c:4-12 | no queue is longer than 256, so a count never wraps around downward |
| Effects.SleepEffect | kernel/sched.c:157-164 | sleep(k): the caller leaves its ready queue for the end of the sleep queue, with status SLEEP and exactly k ticks; then the scheduler picks; nothing else changes |
| Effects.WaitEffect | kernel/sched.c:175-180 | wait(): the caller leaves its ready queue and waits, for no semaphore and in no queue; then the scheduler picks; nothing else changes |
| Effects.WakeupEffect | kernel/sched.c:166-173 | wakeup: the sleeper leaves the sleep queue for the end of its ready queue, READY and with no ticks left; then the scheduler picks; nothing else changes |
| Effects.PrioEffect | kernel/sched.c:83-98 | task_reset_prio: priority and time slice are the new ones; a ready task goes from its queue to the end of the new one; the scheduler picks exactly for the running task; nothing else changes |
| Effects.TickEffect | kernel/sched.c:128-155 | what one tick makes of every record: the running task has used one tick more, and its slice starts anew at its full length exactly if it was at its last tick; a sleeper is counted down and wakes at zero; all others stay |
| Effects.TickQueuesEffect | kernel/sched.c:128-155 | what one tick makes of the queues: the due sleepers leave, in order, for the ends of their ready queues; the scheduler picks exactly if there was one or the slice was over |
| Effects.SpawnEffect | kernel/sched.c:26-46 | kernel_thread: the new task has the priority and number given, a full slice, no children, the caller as parent; it is the last child of the caller, the last of its ready queue and in the table; nothing else changes but the pick |
| Effects.ExitEffect | kernel/sched.c:48-74 | the end of the running task: it is a zombie without children, its children are the last children of its parent and have that as parent; the parent becomes ready exactly if it waits for its children and has none left; nothing else changes but the pick |
| Effects.ReapEffect | kernel/sched.c:233-248 | a round of kkill_zombie: the first zombie leaves the queue, its record, its table entry and its number, and nothing else changes; without a zombie the scheduler picks |
| Effects.SemWaitEffect | include/semaphore.h:23-39 | sem_wait: the count falls by one; if it was not positive the caller leaves its ready queue for the end of the queue of the semaphore and the scheduler picks; nothing else changes |
| Effects.SemPostEffect | include/semaphore.h:41-57 | sem_post: the count rises by one; if somebody waits, the first one leaves the queue for the end of its ready queue, READY; nothing else changes but the pick |
| SemaphoreRuns.CountOfRun | include/semaphore.h:23-57 | over any run the count is the one before and one more for each sem_post and one less for each sem_wait of the run, and the queue is as long as the count is below zero |
| SemaphoreRuns.QueueStep | kernel/semaphore.c:4-21 | who comes to the queue or leaves it in a step: the caller of sem_wait exactly if no unit is left, the first in the queue at a sem_post, nobody else |
| SemaphoreRuns.FirstInFirstOut | kernel/semaphore.c:4-21 | over any run the tasks leave the queue in the order of their arrival, and each sem_wait either returns at once or comes to the queue |
| SemaphoreRuns.GotThrough | kernel/semaphore.c:4-21 | over any run the calls of sem_wait that have returned are min(calls, initial count + posts) |
| TaskRuns.SleepLasts | kernel/sched.c:128-164 | over any run a task that calls sleep(k) sleeps as long as fewer than k ticks have come, unless it is woken |
| TaskRuns.SleepEnds | kernel/sched.c:128-164 | and it is ready after the k-th one; for k = 0, the 2^32-th |
| TaskRuns.WaitStepwise | kernel/sched.c:65-70 | a task in wait() becomes ready in a step exactly if its last child ends in that step, and waits on otherwise |
| TaskRuns.WaitsForLastChild | kernel/sched.c:48-74 | over any run from its wait() a task waits on until its last child ends, and is ready then |
| TaskRuns.ChildlessForEver | kernel/sched.c:65-70 | a task in wait() without children waits for ever, in every run |
| TaskRuns.ReapRounds | kernel/sched.c:233-248 | n rounds of kkill_zombie remove the first n zombies with their numbers, and touch nothing else; as many rounds as there are zombies empty the queue |
| TaskRuns.NumberAgain | kernel/sched.c:76-81 | the number of a killed task can be given to the next one |
| Kernel.Kernel.constructor | kernel/sched.c:100-113 | sched_init on the heap leaves an initial state |
| Kernel.Kernel.Yield | kernel/sched.c:118-126 | schedule on the heap is the step Schedule |
| Kernel.Kernel.Sleep | kernel/sched.c:157-164 | sleep on the heap is the step Sleep |
| Kernel.Kernel.Wakeup | kernel/sched.c:166-173 | wakeup on the heap is the step Wakeup |
| Kernel.Kernel.Wait | kernel/sched.c:175-180 | wait on the heap is the step Wait |
| Kernel.Kernel.ResetPrio | kernel/sched.c:83-98 | task_reset_prio on the heap is the step SetPrio |
| Kernel.Kernel.TimerTick | kernel/sched.c:128-155 | sched_tick on the heap is the step Tick |
| Kernel.Kernel.KernelThread | kernel/sched.c:202-230 | kernel_thread with task_init on the heap is the step Spawn, with the least free number |
| Kernel.Kernel.TaskExit | kernel/sched.c:48-74 | task_exit moves the children one by one and relieves a parent that waits for its last child |
| Kernel.Kernel.KthreadExit | kernel/sched.c:183-192 | kthread_exit(0) on the heap is the step Exit; another status changes nothing |
| Kernel.Kernel.KillZombie | kernel/sched.c:233-248 | one round of kkill_zombie with task_kill on the heap is the step Reap |
| Kernel.Kernel.SemInit | include/semaphore.h:14-18 | sem_init on the heap is the step NewSem |
| Kernel.Kernel.SemaphoreWait | include/semaphore.h:23-39 | sem_wait with __sem_wait on the heap is the step SemWait |
| Kernel.Kernel.SemaphorePost | include/semaphore.h:41-57 | sem_post with __sem_post on the heap is the step SemPost |
| Printf.DigitsValue | kernel/vsprintf.c:69-76 | the digits of every number are digits of the base and evaluate to it |
| Printf.DigitCount | kernel/vsprintf.c:69-76 | a number has at most k digits exactly if it is below the k-th power of the base |
| Printf.DigitsFit | kernel/vsprintf.c:33-33 | no 32-bit value needs more than 32 characters in any base, so the scratch buffer of 36 suffices |
| Printf.Scratch | kernel/vsprintf.c:68-76 | the division loop fills the scratch buffer with the digits, the least significant first |
| Printf.Number | kernel/vsprintf.c:31-116 | writes exactly the formatted number at the pointer and nothing else, and returns the end; returns NULL and writes nothing exactly for a base outside 2..36 |
| Printf.FormattedLength | kernel/vsprintf.c:55-90 | the output is max(size, sign + prefix + max(precision, digits)) long |
| Printf.Meaning | kernel/vsprintf.c:49-56 | sign and digits evaluate to the signed number, also for the most negative one, whose negation wraps around; without the sign flag the digits evaluate to the unsigned number |
| Readings.ReadsNumber | kernel/vsprintf.c:31-116 | a reader of blanks, sign, prefix and digits, which knows nothing of the printer, finds in every output, for every base and every flag: the signed or unsigned number; the sign "-" exactly for negative numbers and "+" exactly if asked for otherwise; 0x or 0X exactly for base 16 if asked for, and a leading 0 for base 8; letters of the case asked for; one blank for a sign exactly for the space flag without the plus flag; and the padding on the side and of the kind asked for, up to the size |
| Readings.DigitsFitting | kernel/vsprintf.c:33-38 | the digits use small letters exactly if asked for |
| Printf.SkipAtoi | kernel/vsprintf.c:8-15 | stops behind the last digit and returns the value that 32 bits keep |
| Printf.ReadsBack | kernel/vsprintf.c:8-116 | skip_atoi inverts unpadded decimal output and stops right after it: it finds the number exactly up to 2^31 - 1, and its signed reading above |

## Left out

- Page tables, multiboot memory map and the choice between memory managers: only the initial flag words of the frame table are used.
- Port I/O, timer and interrupt controller, console, UART, descriptor tables and the context switch itself: switching is the change of the running task.
- Spinlocks, interrupt flags and interruption inside a call: calls are atomic.
- The file system, the ELF reader, logging, panics, string functions and the compiled-out test code.
- Format-string dispatch and argument fetching of `vsprintf`: only `number` and `skip_atoi` are modelled.
- Printf.Number: does not model overflow of the field width and the precision beyond 32 bits, which are unbounded integers here.
- The flag word of a frame is a record of order, valid bit and free bit; the bits above them and the 4-bit encoding of order -1 as 15 are represented by these fields.
- The two lookup tables of the bitmaps are given by the row pattern of their literals instead of all 256 numbers.
- The order of blocks in a buddy list is modelled, but the nodes of these lists are sequences of frame indices, not linked nodes.
- The nodes of `RbTree` have parent and colour in two fields; `RbWords` shows that the accessors of the packed word behave like two fields for aligned addresses.
- The class `Kernel` keeps queues and children as sequences; QueueRings carries out every change of the queues, and Rings.MoveWhole that of the children, on linked nodes.
- The two daemon loops, stacks, task names and the memory page of a task: a task is a fresh object, and `kernel_thread` never runs out of memory.
- The counters `n_tasks` and `list_len` are unbounded; 16-bit lengths do not wrap around here.
- The branch of `kfree` for an unknown object size cannot be reached for live objects, and has no counterpart.
