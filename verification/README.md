# miku: a verified model of the messaging server's core

miku is an instant-messaging server in C. This project models the data structures, concurrent protocols, domain
state machines and codecs underneath it, and proves what every run of them keeps.

- **Ordered timers** (`RedBlackShape`, `RedBlackBalance`, `RedBlackTree`, `TimerSpec`, `Timer`): the red-black tree
  with parent links and a sentinel, full insert and delete fix-up, and the timer queue on top. A valid tree has an
  in-order sequence sorted by key, links that agree in both directions, no red node with a red child, and equal
  black heights. Each subtree is a slice of the in-order sequence, which makes every condition local to a node.
- **Open addressing** (`Probe`): tables of entry numbers searched linearly from a home slot, with deletion by
  clearing a slot and re-inserting the rest of its cluster. The message store, the rate limiter, the group service
  and the sequence allocator all use it.
- **Message store** (`MsgViews`, `MsgStore`, `Turns`): slot pool, free stack, id index and per-conversation chains,
  four views of the same messages, with the exact condition under which each operation keeps them in agreement.
- **Hash map and cache** (`HashMap`, `LruSpec`, `LruUse`, `LruCache`): the tombstone map refines a finite map, and the cache
  on it refines a most-recent-first sequence; caches of different capacity are compared on one trace.
- **Thread pool** (`ThreadPool`): a transition system with one action per lock, condition-variable or atomic
  operation (the pop under the lock goes with the unlock after it); the theorems hold in every state that any
  interleaving reaches.
- **Domain state** (`GroupRules`, `GroupService`, `GroupRpc`, `Gateway`, `RateSpec`, `RateEvict`, `RateLimit`,
  `SeqTable`, `Deliver`, `Transfer`): group membership and ownership, the gateway's connection table, rate limiting,
  sequence numbers under concurrent delivery, and the queue-to-sinks pipeline.
- **Codecs** (`Json`, `JsonText`, `JsonGrammar`, `JsonAccepts`, `JsonBuffers`, `WebSocket`, `WebSocketWire`,
  `ConversationId`): print and parse, encode and decode, and the exact sets of texts and bytes that are accepted.
- `Basics` holds what several modules share.

Objects that the server updates in place are classes; their methods are proved against functions and relations on
values, and the properties are proved about those. Linked nodes (tree, cache list) live in a node store whose
indices stand for pointers, index 0 being the tree's sentinel. Hash functions are arbitrary functions, table sizes
and capacities are parameters (the constants the server uses are named beside the constructors), and the clock and
generated ids are arguments. Strings are sequences of characters; JSON text and frames are sequences of bytes.

Four properties turned out to fail on some inputs. Each has a run or input that shows it and the exact condition,
proved both ways:

- A message without a conversation id is never unlinked from its chain. A delete keeps the chains right exactly if the
  message has an id, an insert exactly if a slot is free or the evicted message has one (`MsgStore.Store.Delete`,
  `MsgStore.Store.Insert`, `MsgStore.UnnamedDeletion`). If one such message evicts another, pulling that conversation
  never ends (`MsgStore.UnnamedOverflow`). Purging or clearing rebuilds the chains whenever it removes anything.
- A group created while the member table is full has no owner among its members; all live groups stay owned exactly if
  the new owner finds room (`GroupRpc.CreateGroup`, `GroupRpc.OwnerlessCreation`).
- A window of no length limits nothing: the limit per window holds exactly if the window is positive or the limit is 0
  (`RateSpec.BoundedExactly`, `RateSpec.NoWindowNoLimit`), and the bound over a stretch no longer than the window
  exactly if the window is not 0 or the limit is 0 (`RateSpec.TwiceExactly`).
- A key that is evicted from a full table is let through afresh. The bound holds for every run over a set of keys exactly
  if nothing is allowed, no stretch fits the window, there is no key, or the window is positive and the table has room
  for every key (`RateEvict.LimitedExactly`, `RateEvict.EvictionForgets`).

## Model

| member | source | states |
|---|---|---|
| `RedBlackTree.Tree.Insert` | src/foundation/miku_rbtree.c:139-154 | Inserting a node keeps the tree valid (search order, consistent parent and child links, no red node with a red child, equal black heights, black root), and the in-order sequence is the old one with exactly this node put in after every key not greater than its own. |
| `RedBlackTree.Tree.Delete` | src/foundation/miku_rbtree.c:156-175 | Deleting a node keeps the tree valid, and the in-order sequence is the old one with exactly this node taken out. |
| `RedBlackTree.Tree.Unlink` | src/foundation/miku_rbtree.c:156-173 | Takes a node out in all three cases of its children; the result is balanced if a red node left its place, and otherwise short of one black node at a single known spot. |
| `RedBlackTree.Tree.UnlinkInner` | src/foundation/miku_rbtree.c:165-173 | With two children the successor takes the place and colour of the deleted node, and the shortage moves to where the successor was. |
| `RedBlackTree.Tree.InsertFixup` | src/foundation/miku_rbtree.c:30-61 | From a tree whose only fault is one red node under a red parent, restores balance and a black root without changing the in-order sequence. |
| `RedBlackTree.Tree.DeleteFixup` | src/foundation/miku_rbtree.c:75-128 | From a tree short of one black node at one spot, restores balance and a black root without changing the in-order sequence, for both sides and all sibling cases. |
| `RedBlackTree.Tree.RotateLeft` | src/foundation/miku_rbtree.c:6-16 | A left rotation rewires exactly the pivot, its right child, the inner subtree and the link from above. |
| `RedBlackTree.Tree.RotateRight` | src/foundation/miku_rbtree.c:18-28 | A right rotation is the mirror image of a left rotation. |
| `RedBlackTree.Tree.Transplant` | src/foundation/miku_rbtree.c:63-68 | One subtree takes the place of another under the same parent, sentinel included. |
| `RedBlackTree.Tree.Min` | src/foundation/miku_rbtree.c:70-73 | Finds the leftmost node of a subtree. |
| `RedBlackTree.Tree.Descend` | src/foundation/miku_rbtree.c:139-147 | The search for a leaf position ends where the new key fits the sorted sequence. |
| `RedBlackTree.Tree.First` | src/foundation/miku_rbtree.c:177-180 | The first node of the in-order sequence, or none for the empty tree. |
| `RedBlackTree.Tree.Next` | src/foundation/miku_rbtree.c:182-189 | The node that follows in the in-order sequence, or none after the last. |
| `RedBlackTree.Tree.Balanced` | src/foundation/miku_rbtree.c:30-128 | In every valid tree of n nodes, two to the height is at most (n + 1) squared, that is, the height is at most 2 log2(n + 1). |
| `RedBlackTree.BlackHeight` | src/foundation/miku_rbtree.c:30-128 | A subtree of black height b has at least 2^b - 1 nodes and height at most 2b, or 2b + 1 under a red root. |
| `RedBlackShape.RotateLeftShape` | src/foundation/miku_rbtree.c:6-16 | A rotation keeps the in-order sequence and the consistency of all links. |
| `RedBlackShape.SpliceShape` | src/foundation/miku_rbtree.c:63-68 | Splicing out a node with at most one child removes exactly it from the in-order sequence. |
| `RedBlackShape.SubstituteShape` | src/foundation/miku_rbtree.c:156-175 | Putting one node in the place of another renames it in the in-order sequence. |
| `RedBlackShape.AttachShape` | src/foundation/miku_rbtree.c:139-154 | Hanging a leaf on the left of a node puts it just before that node in the in-order sequence. |
| `RedBlackBalance.RotateSwap` | src/foundation/miku_rbtree.c:30-128 | A rotation that exchanges the colours of the two pivots keeps every black height, and carries a pending shortage along. |
| `RedBlackBalance.PushRedInv` | src/foundation/miku_rbtree.c:34-38 | With a red uncle, recolouring moves the red-red fault two levels up. |
| `RedBlackBalance.PushHoleInv` | src/foundation/miku_rbtree.c:85-87 | With a black sibling whose children are black, recolouring moves the shortage one level up. |
| `RedBlackBalance.RotateLast` | src/foundation/miku_rbtree.c:95-99 | With a red far nephew, one rotation and recolouring ends the shortage. |
| `Timer.TimerQueue.Arm` | src/runtime/miku_timer.c:39-55 | Hands out the next id and puts the timer into the queue; the queue is what the run with this arming leads to. |
| `Timer.TimerQueue.FindById` | src/runtime/miku_timer.c:57-65 | The walk over first and next finds a timer exactly if one with the id is in the tree. |
| `Timer.TimerQueue.Revoke` | src/runtime/miku_timer.c:67-74 | Cancelling succeeds exactly for ids still in the tree, and marks exactly that timer. |
| `Timer.TimerQueue.Process` | src/runtime/miku_timer.c:76-96 | Fires exactly the uncancelled timers due, in queue order, and keeps the later ones; the queue and the log of fired ids are what the run leads to. |
| `TimerSpec.DueMembers` | src/runtime/miku_timer.c:76-96 | An id fires exactly if some timer carries it, is due and is not cancelled. |
| `TimerSpec.DuePrefix` | src/runtime/miku_timer.c:76-96 | In a sorted queue the due timers are a prefix, so stopping at the first later one loses none. |
| `TimerSpec.RunConsistent` | src/runtime/miku_timer.c:39-96 | Over any run of arming, cancelling and processing, the queue stays sorted with unique ids and no callback runs twice. |
| `TimerSpec.FireOrder` | src/runtime/miku_timer.c:21-28 | If one pass fires a timer before another, its deadline is earlier, or the deadlines are equal and its id is smaller. |
| `TimerSpec.RunInTurn` | src/runtime/miku_timer.c:21-96 | Over every run, ids are handed out from 1 in arming order, and of the timers armed for one deadline those that fire do so in the order in which they were armed. |
| `TimerSpec.CancelledNeverFires` | src/runtime/miku_timer.c:67-74 | After a cancel that finds its timer, no later run fires it. |
| `Probe.Locate` | src/storage/miku_msg_store.c:219-263 | In a proper table the probe ends at the entry with the key, or at the first empty slot from its home, in which case the key is in no slot. |
| `Probe.Scan` | src/storage/miku_msg_store.c:125-143 | Whatever the table holds, the probe ends at the first slot from the home of the key that is empty or holds the key. |
| `Probe.RemoveAt` | src/storage/miku_msg_store.c:160-183 | Clearing a slot and re-inserting the rest of the cluster terminates, keeps every remaining entry reachable, keeps exactly the other entries, and moves none past its old position, including across wrap-around. |
| `Probe.Remove` | src/storage/miku_msg_store.c:232-251 | Deleting a key leaves a sound table without it, and changes nothing if the key was absent. |
| `Probe.OthersUnchanged` | src/protocol/miku_ratelimit.c:41-59 | After a deletion, the lookup of every other key fails or finds the same entry as before, at the same or an earlier step of its path. |
| `Probe.InsertTable` | src/storage/miku_msg_store.c:219-230 | Entering an absent key at the first empty slot keeps the table sound and leaves an empty slot while slots outnumber entries. |
| `Probe.InsertIndexed` | src/protocol/miku_ratelimit.c:29-38 | Entering the next entry extends an index of the first n entries to n + 1. |
| `MsgStore.Store.constructor` | src/storage/miku_msg_store.c:61-95 | A new store is valid, with all slots free and slot 0 on top of the free stack. |
| `MsgStore.Store.Insert` | src/storage/miku_msg_store.c:281-354 | From a store whose views agree: the message goes into the slot on top of the free stack, or over the slot under the rotating cursor when none is free, and no other slot changes. Slots, free stack, counter and id index agree afterwards; the conversation chains agree too exactly if a slot was free or the evicted message had a conversation id, and otherwise no choice of chains makes them right. If one message without a conversation id evicts another, following the links from the head of that conversation never ends. Where the chains agree, the evicted message has left its chain, the new one is at the head of its own, and every other chain keeps its order. |
| `MsgStore.Store.Place` | src/storage/miku_msg_store.c:301-354 | Filling a slot enters it in the id index, takes it off the free stack and links it where the probe for its conversation ends; chains that were right stay right. |
| `MsgStore.Store.ConvLink` | src/storage/miku_msg_store.c:125-143 | A slot goes where the probe for its conversation ends, in front of what was there; if the chains were right it is now at the head of its conversation's chain and every other chain is as before. |
| `MsgStore.Store.ConvUnlink` | src/storage/miku_msg_store.c:145-196 | With a conversation id, takes exactly the slot off its chain, at the head, inside, or as the last one, when the head table is repaired; all else keeps its order. Without one, clears only the slot's own link, after which no choice of chains is right. |
| `MsgStore.Store.Rebuild` | src/storage/miku_msg_store.c:198-204 | Linking all used slots from scratch gives chains that hold exactly the live messages, each from the highest slot down. |
| `MsgStore.Store.FreeRaw` | src/storage/miku_msg_store.c:265-273 | Freeing a slot drops it from the id index and pushes it on the free stack. |
| `MsgStore.Store.FreeSlot` | src/storage/miku_msg_store.c:275-279 | From a store whose views agree: frees exactly the slot. All views but the chains agree afterwards; the chains do exactly if the message had a conversation id. |
| `MsgStore.Store.MemFind` | src/storage/miku_msg_store.c:253-263 | Finds the slot of a live id, and fails exactly when no live message has it. |
| `MsgStore.Store.FindOne` | src/storage/miku_msg_store.c:449-453 | A lookup by id succeeds exactly for live ids and returns that message. |
| `MsgStore.Store.FindByConv` | src/storage/miku_msg_store.c:381-430 | From a store whose views agree, a pull returns each live message of the conversation whose number is at least the start and, for a positive end, at most the end, exactly once, and no other, in the order of its chain. |
| `MsgStore.Store.UpdateStatus` | src/storage/miku_msg_store.c:472-477 | Changes the status of exactly the message with the id; views that agreed still agree. |
| `MsgStore.Store.Delete` | src/storage/miku_msg_store.c:486-491 | From a store whose views agree: frees exactly the message with the id. All views agree afterwards exactly if that message, when there is one, has a conversation id; all but the chains agree in either case, and the other messages keep their order. |
| `MsgStore.Store.RemoveWhere` | src/storage/miku_msg_store.c:499-511 | Frees exactly the selected messages and returns their number; if any went, all views agree afterwards, whatever state the chains were in, with the chains ordered as a rebuild leaves them. |
| `MsgStore.Store.PurgeOlderThan` | src/storage/miku_msg_store.c:499-511 | Frees exactly the messages sent before the cutoff; if any went, all views agree afterwards. |
| `MsgStore.Store.ClearUser` | src/storage/miku_msg_store.c:513-524 | Frees exactly the messages of one sender; if any went, all views agree afterwards. |
| `MsgStore.Ring` | src/storage/miku_msg_store.c:281-323 | In an insert-only run the n-th message (from 0) lands in slot n mod capacity, and the store holds exactly the most recent min(n, capacity) messages. |
| `MsgStore.EmptyConvStays` | src/storage/miku_msg_store.c:148-151 | After the early return for an empty conversation id no choice of chains describes the links. |
| `MsgStore.StaleLink` | src/storage/miku_msg_store.c:125-143 | Linking the next message into the slot left behind that way never mends the chains, wherever the probe ends. |
| `MsgStore.UnnamedReached` | src/storage/miku_msg_store.c:125-151 | A fresh store takes a message without a conversation id with all views in agreement, and the early return of its unlink then leaves chains that no choice explains. |
| `MsgStore.UnnamedDeletion` | src/storage/miku_msg_store.c:333-354 | A run, at any capacity and table size, that ends with broken chains: store one message without a conversation id, then delete it. |
| `MsgStore.RingClosed` | src/storage/miku_msg_store.c:125-151 | A message without a conversation id that takes the slot of another closes that conversation's chain into a ring, wherever in the chain the slot was. |
| `MsgStore.UnnamedOverflow` | src/storage/miku_msg_store.c:281-354 | A run at any capacity after which a pull never ends: one message without a conversation id more than the store has slots. |
| `MsgViews.IdInsert` | src/storage/miku_msg_store.c:219-230 | The id index lists exactly the used slots after an insert of a fresh id. |
| `MsgViews.IdRemove` | src/storage/miku_msg_store.c:232-251 | The id index lists exactly the used slots after a removal. |
| `MsgViews.LinkNew` | src/storage/miku_msg_store.c:131-135 | A first message starts a chain whose head enters the table. |
| `MsgViews.LinkOld` | src/storage/miku_msg_store.c:136-141 | A further message becomes the head of its chain, and the table slot follows. |
| `MsgViews.UnlinkOnly` | src/storage/miku_msg_store.c:160-183 | When the only message of a conversation goes, its table slot is cleared and every other chain stays reachable. |
| `MsgViews.UnlinkHead` | src/storage/miku_msg_store.c:160-162 | When the head of a longer chain goes, its successor takes the table slot. |
| `MsgViews.UnlinkInner` | src/storage/miku_msg_store.c:185-193 | When an inner message goes, its predecessor points past it. |
| `HashMap.Map.constructor` | src/foundation/miku_hashmap.c:55-65 | A new map is empty; its capacity is the least power of two from 16 on that is at least the one asked for. |
| `HashMap.Map.Get` | src/foundation/miku_hashmap.c:114-125 | Finds exactly the keys of the map, with their values. |
| `HashMap.Map.Put` | src/foundation/miku_hashmap.c:80-112 | The map gains exactly this binding, whether the slot held the key, a tombstone or nothing, and the load stays within three quarters. |
| `HashMap.Map.Del` | src/foundation/miku_hashmap.c:127-146 | The map loses exactly this key; fails exactly when it was absent. |
| `HashMap.Map.Resize` | src/foundation/miku_hashmap.c:38-53 | Rehashing keeps the map and drops every tombstone; it doubles the capacity exactly if the live entries alone reach three quarters, and leaves room for one more. |
| `HashMap.CopyAll` | src/foundation/miku_hashmap.c:42-47 | Copying the live entries into an empty table holds the same map and makes no tombstones. |
| `HashMap.OkLimits` | src/foundation/miku_hashmap.c:83-85 | In every valid map used slots are at most three quarters, so a quarter of the slots are empty and probes meet one. |
| `HashMap.Miss` | src/foundation/miku_hashmap.c:114-125 | A probe that reaches an empty slot without seeing the key proves its absence, tombstones on the way notwithstanding. |
| `HashMap.TombstoneKeeps` | src/foundation/miku_hashmap.c:127-146 | Replacing an entry by a tombstone keeps every other key reachable. |
| `LruCache.Cache.constructor` | src/storage/miku_cache.c:30-40 | A new cache is empty; capacity 0 means 1024. |
| `LruCache.Cache.Get` | src/storage/miku_cache.c:49-62 | Finds exactly the keys held and not expired, with the value held; the cache is then what the run with this get leads to, so a hit counts as a use. |
| `LruCache.Cache.Put` | src/storage/miku_cache.c:75-98 | The cache is what the run with this put leads to, at the time to live given or for good. |
| `LruCache.Cache.EvictLru` | src/storage/miku_cache.c:64-73 | Only least recent entries are dropped, and just enough for one more. |
| `LruCache.Cache.Del` | src/storage/miku_cache.c:104-114 | The cache is what the run with this delete leads to; succeeds exactly if the key was held. |
| `LruCache.Cache.EvictExpired` | src/storage/miku_cache.c:120-137 | The cache is what the run with this sweep leads to; returns how many entries went. |
| `LruCache.Cache.Remove` | src/storage/miku_cache.c:6-9 | Takes one node out of list and map together. |
| `LruCache.Cache.Touch` | src/storage/miku_cache.c:18-21 | Moves one node to the front, map unchanged. |
| `LruSpec.RunBounded` | src/storage/miku_cache.c:49-137 | Over any run keys stay distinct and the size never exceeds the capacity. |
| `LruSpec.RunWithin` | src/storage/miku_cache.c:49-137 | On one trace and clock, the cache of capacity k is that of capacity k + 1 with at most one entry taken out. |
| `LruSpec.Inclusion` | src/storage/miku_cache.c:49-137 | On one trace and clock, everything a smaller cache holds, any larger one holds. |
| `LruSpec.InclusionHits` | src/storage/miku_cache.c:49-62 | Whatever the smaller cache answers, the larger one answers the same. |
| `LruUse.RecentFirst` | src/storage/miku_cache.c:6-137 | After every run, of two keys held the one whose last put or successful get is later stands first. |
| `LruUse.HeldExactly` | src/storage/miku_cache.c:47-137 | After every run and one more operation, exactly these entries are held: the one put, and of the others those that were not deleted, had not expired when looked at, and were not the least recently used of a full cache when a new key came. |
| `LruUse.HeldStored` | src/storage/miku_cache.c:47-137 | After every run, an entry held is the one last put for its key, and the key has not been deleted since. |
| `LruUse.HitsAnswers` | src/storage/miku_cache.c:47-62 | A hit is an entry that is there and whose expiry is 0 or not before now. |
| `ThreadPool.StepInv` | src/runtime/miku_threadpool.c:46-155 | Every step of any worker, submitter or waiter, and of shutdown, keeps the pool's invariant; loads, waits, stores, broadcasts and unlocks are steps of their own. |
| `ThreadPool.PendingExact` | src/runtime/miku_threadpool.c:74-110 | Whenever the queue lock is free, pending equals the queued tasks plus those popped and not yet counted off. |
| `ThreadPool.WaitIdleSound` | src/runtime/miku_threadpool.c:148-155 | wait_idle returns only after every task pushed before the call has finished. |
| `ThreadPool.WaitIdleCovers` | src/runtime/miku_threadpool.c:148-155 | In every interleaving, when a call of wait_idle has returned, every task pushed before that call began has finished. |
| `ThreadPool.WaitIdleReturns` | src/runtime/miku_threadpool.c:148-155 | With the lock free, a caller of wait_idle gets through by its own steps exactly if nothing is pending; otherwise it sleeps, and its timeout makes it look again. |
| `ThreadPool.WaitIdleCalls` | src/runtime/miku_threadpool.c:148-155 | With the lock free, a call of wait_idle that begins now returns by its own steps exactly if nothing is pending, and is then answerable for what had been pushed when it began. |
| `ThreadPool.DestroyCloses` | src/runtime/miku_threadpool.c:127-127 | Destroy turns the shutdown flag on and changes nothing else; from then on, in every interleaving, no call of submit gets in and no task is pushed. |
| `ThreadPool.TaskAlone` | src/runtime/miku_threadpool.c:66-79 | A worker with a task, left alone, runs it, counts it off, wakes every sleeping waiter exactly if nothing is pending any more, and starts over. |
| `ThreadPool.StirWakes` | src/runtime/miku_threadpool.c:76-78 | Waking the waiters leaves nobody asleep and changes nothing else about them. |
| `ThreadPool.WokenLooks` | src/runtime/miku_threadpool.c:51-55 | A sleeping worker woken by a signal, by the broadcast or for no reason goes for the lock next and looks at the queue again. |
| `ThreadPool.FifoOnce` | src/runtime/miku_threadpool.c:53-68 | A worker at its pop takes the next task in push order, never finding the queue empty, and no task function finishes twice or runs with two workers. |
| `ThreadPool.ExitClean` | src/runtime/miku_threadpool.c:57-61 | When every worker has left, the queue is empty and every pushed task has finished exactly once. |
| `ThreadPool.EverySubmitQueues` | src/runtime/miku_threadpool.c:104-114 | In every interleaving, the submit calls begun are as many as the tasks pushed and the submitters about to push. |
| `ThreadPool.EverySubmitRuns` | src/runtime/miku_threadpool.c:46-114 | When every worker has left, as many tasks have finished, each exactly once, as submit calls were made. |
| `ThreadPool.SubmitAlone` | src/runtime/miku_threadpool.c:104-114 | With the lock free, a submit call is refused exactly after shutdown, and otherwise puts its task last in the queue and counts it as pending. |
| `ThreadPool.WorkerAlone` | src/runtime/miku_threadpool.c:46-64 | With the lock free, a worker takes the first task if there is one, leaves if there is none after shutdown, and goes to sleep otherwise. |
| `ThreadPool.NoLostWakeUp` | src/runtime/miku_threadpool.c:53-55 | If every worker is asleep with work queued, some submitter has pushed and still has to signal. |
| `ThreadPool.NoDeadlock` | src/runtime/miku_threadpool.c:46-114 | While a pushed task is unfinished, some thread can take a step of its own. |
| `ThreadPool.IdleMeansDone` | src/runtime/miku_threadpool.c:151-153 | Reading pending as zero under the lock means every pushed task is finished. |
| `ThreadPool.TaskQueue.Push` | src/runtime/miku_threadpool.c:26-35 | Appends a task to the linked queue. |
| `ThreadPool.TaskQueue.Pop` | src/runtime/miku_threadpool.c:37-44 | Takes the first task off the linked queue, or returns none exactly when it is empty. |
| `Json.RoundTrip` | src/protocol/miku_json.c:314-348 | Parsing the printed form of any double-free value with NUL-free strings and 64-bit integers gives back that value, pairs in order, and leaves what follows. |
| `Json.StringRoundTrip` | src/protocol/miku_json.c:528-564 | A printed string literal parses back to the string. |
| `Json.IntRoundTrip` | src/protocol/miku_json.c:576-581 | A printed 64-bit integer parses back to itself, the smallest one included. |
| `Json.ArrayRoundTrip` | src/protocol/miku_json.c:237-267 | A printed array parses back to its items. |
| `Json.ObjectRoundTrip` | src/protocol/miku_json.c:269-312 | A printed object parses back to its pairs, in order. |
| `Json.UnescapeEscape` | src/protocol/miku_json.c:126-189 | Decoding an escaped NUL-free string gives it back. |
| `Json.PrintInjective` | src/protocol/miku_json.c:566-610 | Different values print differently. |
| `Json.Unescape` | src/protocol/miku_json.c:126-189 | Decoded text is never longer than the raw literal. |
| `Json.StrtollExact` | src/protocol/miku_json.c:221-233 | The converted integer is exact inside the 64-bit range and the nearer end of it outside, whatever follows the digits. |
| `JsonText.EscapeDecodes` | src/protocol/miku_json.c:156-180 | The \u escape of every scalar value but NUL, in either case and as a surrogate pair beyond the first plane, decodes to its UTF-8 form. |
| `JsonText.EscapeReplaced` | src/protocol/miku_json.c:164-178 | The escape of NUL, of a low surrogate, or of a high surrogate that no low one follows decodes to U+FFFD. |
| `JsonText.EscapedText` | src/protocol/miku_json.c:139-187 | A literal written in escapes throughout decodes to the UTF-8 text of its code points. |
| `JsonText.Utf8PrefixFree` | src/protocol/miku_json.c:101-124 | No UTF-8 form is the beginning of another, so the encoding is injective. |
| `JsonText.Utf8AllInjective` | src/protocol/miku_json.c:101-124 | Different sequences of code points have different UTF-8 texts. |
| `JsonText.SimpleEscapes` | src/protocol/miku_json.c:146-155 | The escapes b, f, n, r and t stand for the characters 8, 12, 10, 13 and 9; any other character but u stands for itself. |
| `JsonText.Utf8Form` | src/protocol/miku_json.c:101-124 | The UTF-8 form has one, two, three or four bytes for code points up to 7F, 7FF, FFFF and 10FFFF; its lead byte and continuation bytes, six bits each, add up to the code point. |
| `JsonText.EscapeForms` | src/protocol/miku_json.c:537-555 | The printer writes a quote, a backslash and the five named control characters as an escape of two characters, other control characters in lower-case hexadecimal, and everything else as it is. |
| `JsonText.PrintVisible` | src/protocol/miku_json.c:528-610 | The printed form of a value holds no control character. |
| `JsonText.BadEscapes` | src/protocol/miku_json.c:156-160 | A u without four hexadecimal digits after it, and a backslash at the end, stand for themselves. |
| `JsonAccepts.Accepted` | src/protocol/miku_json.c:66-348 | Every text of the grammar, given in literal characters with blanks in any place, any escapes and any number form, is accepted with its meaning and leaves what follows. |
| `JsonAccepts.AcceptsOnly` | src/protocol/miku_json.c:66-348 | Whatever the parser accepts is a text of the grammar, with the meaning of that text. |
| `JsonGrammar.NoValue` | src/protocol/miku_json.c:314-348 | A text that is empty or starts with none of the blanks and of the characters that start a value is refused. |
| `JsonBuffers.DecodeString` | src/protocol/miku_json.c:126-189 | The two passes over the literal agree with the string grammar, with and without escapes. |
| `JsonBuffers.FindClosing` | src/protocol/miku_json.c:128-136 | The first pass stops at the closing quote, skipping escaped characters. |
| `JsonBuffers.DecodeInto` | src/protocol/miku_json.c:140-186 | The second pass fills the buffer with the decoded text and never writes past the raw length. |
| `JsonBuffers.DecodeUnit` | src/protocol/miku_json.c:146-183 | One escape or plain byte of the buffer decodes as in the grammar, whose escapes JsonText characterises. |
| `JsonBuffers.ScanNumber` | src/protocol/miku_json.c:201-216 | The scan ends where the number literal ends and knows whether it has a fraction or exponent. |
| `JsonBuffers.StringifyStr` | src/protocol/miku_json.c:528-564 | Appending escape-free runs as blocks prints the same literal as escaping byte by byte. |
| `GroupService.Service.GroupFind` | src/services/group/miku_group.c:55-65 | Finds exactly the known group ids. |
| `GroupService.Service.MemberFind` | src/services/group/miku_group.c:78-89 | Finds exactly the listed members. |
| `GroupService.Service.Rebuild` | src/services/group/miku_group.c:92-103 | Refilling the hash and the chains makes them agree with the member array. |
| `GroupService.Service.AddMember` | src/services/group/miku_group.c:154-174 | Appends the member and counts it, keeping all indexes; a full table or an existing member changes nothing. |
| `GroupService.Service.RemoveMember` | src/services/group/miku_group.c:176-186 | Swap-remove takes out exactly the member, and the indexes agree again. |
| `GroupService.Service.NewGroup` | src/services/group/miku_group.c:124-139 | Creates the group with its owner if there is room for both, else without the owner. |
| `GroupService.Service.Roster` | src/services/group/miku_group.c:204-223 | Visits each member of the group exactly once, along the chain or by a scan. |
| `GroupService.Service.IsMember` | src/services/group/miku_group.c:225-229 | True exactly for listed members with non-empty ids. |
| `GroupService.Service.MemberRole` | src/services/group/miku_group.c:231-236 | The role of a listed member, -1 otherwise. |
| `GroupRules.AddSound` | src/services/group/miku_group.c:154-174 | Adding an ordinary member to a live group keeps every counter exact and every owned group owned. |
| `GroupRules.RemoveSound` | src/services/group/miku_group.c:176-186 | Removing a member other than the owner keeps every counter exact and every owned group owned. |
| `GroupRules.DismissSound` | src/services/group/miku_group.c:605-613 | Dismissing empties the group, keeps every counter exact and every other owned group owned. |
| `GroupRules.TransferSound` | src/services/group/miku_group.c:686-695 | If the old owner was the group's only owner-level member, the new one is; no other group changes. |
| `GroupRules.CreateWithoutRoom` | src/services/group/miku_group.c:131-138 | Creating a group when the member table is full leaves a live group without owner, all counters exact, and every other group as it was. |
| `GroupRpc.CreateGroup` | src/services/group/miku_group.c:430-452 | Counters stay exact and owned groups owned. All live groups are owned afterwards exactly if they were before and the call had no owner, no room for a group, or room for the owner as a member. The owner enters at owner level, and the listed others are exactly the ordinary members added, all of them unless the table filled up. |
| `GroupRpc.OwnerlessCreation` | src/services/group/miku_group.c:124-139 | At any table sizes: one group with as many different members as there is room for fills the member table, and the next creation leaves a live group that nobody owns. |
| `GroupRpc.InviteToGroup` | src/services/group/miku_group.c:460-492 | Accepted exactly from a member of a live group. Exactly the named users join, as ordinary members and all of them unless the table filled up; it reports success exactly when somebody was named and there was room at the start. In any state the counters stay exact and no group loses its owner. |
| `GroupRpc.QuitGroup` | src/services/group/miku_group.c:569-589 | Each error code is given exactly in its case; success removes exactly that user from that group. In any state the counters stay exact and no group loses its owner. |
| `GroupRpc.KickGroupMember` | src/services/group/miku_group.c:634-667 | Accepted exactly from an admin or owner of a live group; removes exactly the listed members ranked below the operator, never the operator or the owner. In any state the counters stay exact and no group loses its owner. |
| `GroupRpc.TransferGroupOwner` | src/services/group/miku_group.c:668-697 | Succeeds exactly for the owner and a listed member; ownership and the two roles change hands and nothing else does. In any state the counters stay exact and no group loses its owner. |
| `GroupRpc.DismissGroup` | src/services/group/miku_group.c:590-615 | Succeeds exactly for the owner; removes exactly the members of the group, marks it dismissed, and a dismissed group never changes again. |
| `GroupRpc.Compact` | src/services/group/miku_group.c:605-610 | In-place compaction keeps exactly the members of other groups, in order. |
| `Gateway.Table.FindByFd` | src/gateway/msggateway/miku_msggateway.c:150-162 | Finds a session exactly if one is online on the descriptor. |
| `Gateway.Table.FindOrAdd` | src/gateway/msggateway/miku_msggateway.c:553-574 | A connection gets its session, a free slot or a new one; fails exactly when the table is full; all views still agree. |
| `Gateway.Table.Upgrade` | src/gateway/msggateway/miku_msggateway.c:635-640 | A handshake names the session's user and puts it in that user's chain. |
| `Gateway.Table.UserIndexDel` | src/gateway/msggateway/miku_msggateway.c:114-127 | Splices exactly the session out of its user's chain. |
| `Gateway.Table.ClientOffline` | src/gateway/msggateway/miku_msggateway.c:129-148 | Ends exactly one session: chain, fd map, free stack and counter all follow. |
| `Gateway.Table.KickUser` | src/gateway/msggateway/miku_msggateway.c:285-306 | Ends exactly the user's sessions on the platform while walking the chain it edits, and returns their number. |
| `Gateway.Table.SendToUser` | src/gateway/msggateway/miku_msggateway.c:259-273 | A message goes out once on each of the user's upgraded sessions and on no other. |
| `Gateway.Table.Stop` | src/gateway/msggateway/miku_msggateway.c:215-226 | Ends every session and leaves an empty valid table. |
| `Gateway.ChainCut` | src/gateway/msggateway/miku_msggateway.c:114-127 | Splicing one session out keeps every chain acyclic and exact. |
| `RateLimit.Limiter.Allow` | src/protocol/miku_ratelimit.c:101-130 | The table stays the one its calls so far lead to, and the answer is the one the run gives to this call, the oldest window being evicted when the table is full. |
| `RateLimit.Limiter.EvictOldest` | src/protocol/miku_ratelimit.c:74-82 | Finds the first of the windows that opened earliest. |
| `RateLimit.Limiter.Reuse` | src/protocol/miku_ratelimit.c:109-120 | Giving an entry to another key keeps the index exact. |
| `RateLimit.Limiter.RemainingFor` | src/protocol/miku_ratelimit.c:132-149 | Reports what is left in the key's window after the calls so far. |
| `RateSpec.WindowLimit` | src/protocol/miku_ratelimit.c:122-127 | At most the limit is allowed within one window, whichever way the clock runs. |
| `RateSpec.TwiceLimit` | src/protocol/miku_ratelimit.c:122-127 | At most twice the limit is allowed in any stretch of calls whose times lie within the window of each other, even if the clock steps back. |
| `RateSpec.TwiceTight` | src/protocol/miku_ratelimit.c:122-127 | In a stretch one millisecond longer than the window more than twice the limit can be allowed, for every positive window. |
| `RateSpec.BoundedExactly` | src/protocol/miku_ratelimit.c:122-127 | At most the limit per window in every sequence of calls, if and only if the window is positive or the limit is 0. |
| `RateSpec.TwiceExactly` | src/protocol/miku_ratelimit.c:122-127 | At most twice the limit in every stretch whose times lie within the window of each other, if and only if the window is not 0 or the limit is 0. |
| `RateSpec.NoWindowNoLimit` | src/protocol/miku_ratelimit.c:122-127 | The failing input: two calls at one instant, window 0 and limit 1, both allowed in one window. |
| `RateSpec.RemainingHolds` | src/protocol/miku_ratelimit.c:132-149 | If k calls remain for a window, the next k calls are allowed, whatever windows turn over meanwhile. |
| `RateSpec.RemainingExact` | src/protocol/miku_ratelimit.c:132-149 | Of the calls that fall in the window of the question, exactly as many as remaining reports are allowed, and the next is refused. |
| `RateSpec.RunWindow` | src/protocol/miku_ratelimit.c:101-130 | In any run over all keys, a key that is never evicted is counted as if it were alone. |
| `RateSpec.RunLimit` | src/protocol/miku_ratelimit.c:101-130 | In any run of the table, a key that is never evicted is let through at most twice the limit in any stretch in which its times lie within the window of each other. |
| `RateSpec.RunWindowLimit` | src/protocol/miku_ratelimit.c:101-130 | In any such run, at most the limit is let through while the table keeps one window for the key. |
| `RateSpec.AnswerAlone` | src/protocol/miku_ratelimit.c:101-130 | Each answer of the table to a key that is never evicted is the one the key would get alone. |
| `RateSpec.RunRemaining` | src/protocol/miku_ratelimit.c:101-149 | If after some calls remaining reports r for a key, the key's next r calls are all let through by the table, whatever other keys do short of evicting it. |
| `RateEvict.LimitedExactly` | src/protocol/miku_ratelimit.c:74-130 | Every run of the table over a set of keys lets every key through at most twice the limit in every stretch in which its times lie within the window of each other, if and only if the limit is 0, the window is negative, there is no key, or the window is positive and the table has room for every key. |
| `RateEvict.RoomForAll` | src/protocol/miku_ratelimit.c:74-120 | With room for every key of a run, no key is ever evicted. |
| `RateEvict.EvictionForgets` | src/protocol/miku_ratelimit.c:74-120 | With one key more than the table has entries, at any table size, window and limit of at least 1, there is a run at a single instant that lets one key through as often as you please. |
| `SeqTable.Seqs.Next` | src/storage/miku_seq.c:93-100 | The next number of a conversation, by one; none for an empty id or a new conversation in a full table; other counters unchanged. |
| `SeqTable.Seqs.Current` | src/storage/miku_seq.c:102-109 | The counter of a conversation, 0 if unknown. |
| `Deliver.StepInv` | src/gateway/msggateway/miku_msggw_ws_ops.c:210-226 | Allocating, storing, removing and restating by any thread keep stored and held numbers apart and within the counter. |
| `Deliver.NumbersDiffer` | src/gateway/msggateway/miku_msggw_ws_ops.c:210-226 | For every interleaving of delivering threads, live messages of one conversation have different numbers, none above its counter. |
| `Deliver.Delivers` | src/gateway/msggateway/miku_msggw_ws_ops.c:210-226 | One delivery: a thread that holds no number may ask for one, gets the next of its conversation unless the table is full, stores its message under it and holds none again. |
| `Deliver.Maintains` | src/storage/miku_msg_store.c:472-491 | A live message may be removed, which frees its slot and no other, or given another status, which changes nothing else; a free slot may not. |
| `Deliver.NoGaps` | src/storage/miku_seq.c:60-100 | In every interleaving, the counter of a conversation is how many numbers have been given out for it. |
| `Deliver.NextNumber` | src/storage/miku_seq.c:60-100 | In every interleaving, the number a thread gets is one more than the numbers given out before for that conversation. |
| `Deliver.PullDistinct` | src/storage/miku_msg_store.c:381-430 | The messages of a pull have pairwise different numbers, at least the start, at most the counter, and at most a positive end. |
| `Transfer.Ring.Enqueue` | src/gateway/msgtransfer/miku_msgtransfer.c:36-48 | Appends to the ring, or refuses exactly when it is full. |
| `Transfer.Ring.Dequeue` | src/gateway/msgtransfer/miku_msgtransfer.c:50-63 | Takes the first message off the ring, or fails exactly when it is empty. |
| `Transfer.Pipeline.Submit` | src/gateway/msgtransfer/miku_mt_pipeline.c:72-79 | For every sink, what it has plus the batch grows by exactly the message; only a full batch is flushed first. |
| `Transfer.Pipeline.Flush` | src/gateway/msgtransfer/miku_mt_pipeline.c:81-94 | Every sink gets exactly the batch, in order, once. |
| `Transfer.Pipeline.SeqNext` | src/gateway/msgtransfer/miku_mt_pipeline.c:100-104 | Numbers by receiver, an empty receiver counting as "default". |
| `Transfer.Worker.Accept` | src/gateway/msgtransfer/miku_msgtransfer.c:36-48 | An accepted message joins the end of the queue; conservation holds. |
| `Transfer.Worker.Drain` | cmd/miku-msgtransfer/main.c:105-109 | Everything queued is numbered and submitted in order; for each sink, received, then batch, then queue is what was accepted. |
| `Transfer.Worker.Tick` | cmd/miku-msgtransfer/main.c:114-117 | After a flush every sink has everything dequeued so far, in order. |
| `Transfer.CountersExact` | src/storage/miku_seq.c:60-100 | A receiver's counter is the number of its messages, and a receiver never counted has had none while there was room. |
| `Transfer.GivenIsNumber` | src/gateway/msgtransfer/miku_mt_pipeline.c:100-104 | The i-th message of a receiver gets number i, or -1 exactly when the table had no room for the receiver. |
| `WebSocket.RoundTrip` | src/protocol/miku_websocket.c:94-143 | Decoding an encoded frame followed by anything gives the frame and its length, masked or not, for all three length forms, exactly if the payload is within the limit; a longer one is refused. |
| `WebSocket.PrefixNeedsMore` | src/protocol/miku_websocket.c:94-143 | Every proper prefix of at least two bytes of a frame asks for more. |
| `WebSocket.StreamRoundTrip` | src/protocol/miku_websocket.c:94-143 | Decoding a concatenation of encoded frames gives back those frames and leaves the rest. |
| `WebSocket.MaskTwice` | src/protocol/miku_websocket.c:81-82 | Masking twice with one key gives back the payload. |
| `WebSocket.EncodeInto` | src/protocol/miku_websocket.c:50-92 | Fails exactly when the frame does not fit the buffer, whatever its payload size; otherwise the buffer holds the encoded frame. |
| `WebSocket.DecodeFrom` | src/protocol/miku_websocket.c:94-143 | The decoding loop computes the decoder function. |
| `WebSocket.ReadFrame` | src/protocol/miku_websocket.c:183-238 | The stream reader succeeds exactly when the decoder does, with the same frame, and takes exactly its bytes. |
| `WebSocketWire.EncodeIsWire` | src/protocol/miku_websocket.c:50-92 | An encoded frame is laid out byte by byte as section 5.2 of RFC 6455 says: flags, opcode, shortest length form with the highest byte first, key, and data with each bit flipped where the key has a one. |
| `WebSocketWire.WireDecodes` | src/protocol/miku_websocket.c:94-143 | Every frame on the wire, whatever its reserved bits and the form of its length, decodes to its parts, and is refused exactly if its payload is above the limit. |
| `WebSocketWire.WireStarts` | src/protocol/miku_websocket.c:94-143 | A proper start of at least two bytes asks for more until the length is known to be above the limit, and is refused then. |
| `WebSocketWire.DecodesOnly` | src/protocol/miku_websocket.c:94-143 | Whatever the decoder takes for a frame is one on the wire, taken in full. |
| `WebSocketWire.AsksOnly` | src/protocol/miku_websocket.c:94-143 | Whatever the decoder asks more for is a proper start of a frame on the wire. |
| `WebSocketWire.DecodedOk` | src/protocol/miku_websocket.c:94-143 | The frames some input decodes to are exactly the ones that can be encoded within the limit. |
| `WebSocketWire.RefusesOnly` | src/protocol/miku_websocket.c:94-143 | What the decoder refuses has less than two bytes or announces a length above the limit. |
| `ConversationId.Symmetric` | src/models/miku_models.c:125-131 | The id of a single chat does not depend on who sends. |
| `ConversationId.Injective` | src/models/miku_models.c:125-131 | Different pairs of users never share an id, whatever characters their names contain. |
| `ConversationId.SmallerFirst` | src/models/miku_models.c:125-131 | The id of a single chat is the prefix, the length of the smaller name, that name and the other. |
| `ConversationId.LexFirst` | src/models/miku_models.c:126-127 | A name is smaller than another if it starts it or has the smaller character where they first differ. |
| `ConversationId.Precedence` | src/models/miku_models.c:116-144 | A given id wins over a group, a group over the participants, and a lone participant names the conversation. |
| `ConversationId.GroupsApart` | src/models/miku_models.c:121-131 | Different groups have different conversations, and none of them is that of two users. |
| `ConversationId.PeerExact` | src/models/miku_models.c:146-174 | The peer is found exactly for the two participants, and is the other one. |
| `ConversationId.PeerCut` | src/models/miku_models.c:148-174 | At any sizes, a second name that does not fit the buffer is cut short, and a first name that does not fit or has 64 characters or more is refused. |
| `ConversationId.LegacyFound` | src/models/miku_models.c:175-192 | In the older form the first participant finds the second, and the second the first unless its name also starts the text. |
| `ConversationId.LegacySound` | src/models/miku_models.c:175-192 | In the older form only a name that starts or ends the text next to an underscore gets an answer, and never an empty one. |
| `ConversationId.PeerSound` | src/models/miku_models.c:152-174 | Only a text made of a length, a first name of that length below 64 and a second, nonempty name gives an answer, and only to those two names. |

## Left out

- Memory: allocation always succeeds, freed nodes are not reused, and strings are not cut to their fixed buffers (except the number and peer buffers, which are modelled).
- Integer widths: counters and indices are unbounded; only JSON integers saturate as in the source. The bit masks of the source are taken as remainders by the table size.
- Hash functions: taken as arbitrary functions, so the proofs hold for any of them.
- MsgStore.Store.Insert: asks for a fresh id, as generated ids are, and for chains that are right; what a further insert does to chains already broken is not modelled. The overwrite callback is not modelled.
- MsgStore.Store.ConvUnlink: asks for chains that are right; on broken chains the walk of the source need not end. A rebuild mends them.
- MsgStore.Store.FreeSlot: asks for chains that are right, as it unlinks.
- MsgStore.Store.Delete: asks for chains that are right, as it unlinks.
- MsgStore.Store.FindByConv: asks for chains that are right, as the walk need not end otherwise (`MsgStore.UnnamedOverflow`); returns the messages rather than their JSON text.
- Timer.TimerQueue.Process: callbacks do not touch the timer; the time to the next deadline is not modelled.
- ThreadPool.StepInv: no submit races destroy; nothing is claimed about every worker waking up after shutdown, fairness or the idle-worker counter.
- LruCache.Cache.Get: value ownership and the free callback are not modelled; neither is clearing the whole cache.
- HashMap.Map.Get: a stored null value is not distinguished from other values, as values are opaque numbers.
- Json.RoundTrip: doubles keep their literal text and are not converted; the key index of objects, accessors and cloning are not modelled.
- GroupRpc.CreateGroup: asks for a fresh group id, as generated ids are. The calls that only read, rename or mute a group, and group creation by the gateway's member sync, are left out as they change no membership or add only easy members.
- Gateway.Table.Upgrade: sockets, handshakes and presence callbacks are not modelled.
- RateSpec.RunLimit: says nothing about a key whose window is evicted from a full table, where `RateEvict.EvictionForgets` shows the bound to fail.
- SeqTable.Seqs.Next: setting a counter outright and the per-user read marks are not modelled.
- Deliver.StepInv: friend, blacklist and membership checks before delivery, and the fan-out after it, are not modelled; conversation ids are non-empty.
- Transfer.Worker.Drain: all three sinks are set, as the transfer process sets them; its cron task is not modelled.
- WebSocket.ReadFrame: the stream is a finite sequence of bytes; waiting and deadlines are not modelled.
- ConversationId.PeerExact: ids are shorter than 64 characters and fit the peer buffer; `ConversationId.PeerCut` has the other sizes.
- The rest of the server: HTTP and RPC transport, TLS, tokens and signatures, Mongo, Redis and Kafka clients, push, friends, users, conversations, object storage, discovery, coroutines, logging, configuration, base64, protobuf and checksums.
