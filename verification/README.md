# Timer and callback framework: a verified model

A memory-pooled timer service keeps its timers in a min-heap in shared memory. A timer task
watches the top of the heap and, when it is due, sends the timer's pool index as a 16-byte
message to the task that runs the timer's callback; that task runs the callback and either
puts the timer back into the heap or frees it. This project models that service and proves
what every run of it keeps.

| file | what it holds |
|---|---|
| `HeapOrder.dfy` | the two sifts and removal as functions on heap contents, as written and as meant |
| `HeapSearch.dfy` | the recursive search for a timer, as written and as meant |
| `PriorityQueue.dfy` | the repaired heap refines a bag with a least element in slot 0 |
| `WrittenHeap.dfy` | what the heap without the repairs holds after any additions and removals |
| `MinHeap.dfy` | the heap on its array: methods proved equal to those functions |
| `FreeList.dfy`, `Pool.dfy` | the free list threaded through the pool, and the pool's geometry |
| `Codec.dfy`, `Streams.dfy` | the expiry message and the stream serializers |
| `TimerUtils.dfy` | clock arithmetic and fuzzy firing times |
| `Protocol.dfy` | the life of timers as steps over pool, heap, queues and clock, and the invariant |
| `Scheduling.dfy` | what the schedule step promises of the firing time, entry point by entry point |
| `ProtocolRuns.dfy`, `Lifetimes.dfy`, `Pauses.dfy`, `Backlog.dfy`, `Progress.dfy`, `Cancellation.dfy`, `FiringOrder.dfy`, `Accounts.dfy` | theorems about whole runs |
| `WrittenEngine.dfy`, `MissedStop.dfy` | the same steps on the heap without the repairs: exactly when they are the protocol's, and a run in which one is not |
| `Timers.dfy`, `TimerEngine.dfy` | Timer objects and the engine on memory: every operation is a protocol step |

## How the code and its intent differ

Where the code falls short of what it is for, the model has both: the code as written with
its exact contract, and the smallest repair with the full one.

* Sifting down returns without a comparison when a node has only a left child
  (platform/TimerMinHeap.cpp:184). Keys 1, 2, 3 minus the top become 3, 2.
* A removal moves the last timer into the hole and only ever sifts it down
  (platform/TimerMinHeap.cpp:118, 125, 132), although it may be smaller than the hole's parent.
  Keys 1, 10, 2, 11, 12, 3, 4 minus the 11 leave 4 below 10.
* The search never looks at the last slot when there are four or more timers
  (platform/TimerMinHeap.cpp:123, 130, 139), and with one timer it looks at a stale slot. A
  stop of the timer in that slot leaves it in the heap, and its callback runs all the same
  (`MissedStop.StoppedCallbackRuns`); a restart of it puts it there twice
  (`WrittenHeap.RestartedTwice`).
* In an empty heap the search looks at three stale slots, and a match makes the code read the
  array at 2^32 - 1 (platform/TimerMinHeap.cpp:116-118). New, schedule, stop and delete of a
  single timer, all within the discipline, come to that: the stop leaves the timer in stale
  slot 0, and the delete removes it a second time (`ProtocolRuns.DeleteAfterStop`,
  `WrittenHeap.RemovedTwice`).
* An absolute first firing time is taken from the member `first`, not from the argument
  (platform/Timer.cpp:159). The model does the same. Such a timer may be due before one that
  has already fired, and then fires out of order (`FiringOrder.OrderLost`).
* A periodic timer with limit N runs N + 1 times, because re-arming compares with `<=`
  (platform/Timer.cpp:391). The model does the same. With limit 2^32 - 1 it never ends.
* The comment at platform/TimerTask.cpp:137-139 says that cancelled timers have left the heap.
  They have not: `cancel` leaves the timer where it is, and it fires once more, without effect.

The engine in `TimerEngine.dfy` uses the repaired heap. The theorems in `ProtocolRuns.dfy`,
`Lifetimes.dfy` and `Pauses.dfy` about safety, counts and times hold for whatever timer of the
heap the timer task finds at the top, so they do not depend on the heap order, only on removals
finding their timer. They hold of the heap without the repairs, too, in every run in which no
stop, restart or delete goes amiss (`WrittenEngine.WrittenRefines`).

## Assumptions

* Each call of the application interface, each iteration of the timer task and each received
  message is one atomic step with one reading of the clock. (The timer task does not take the
  semaphore, platform/TimerTask.cpp:123.)
* Message queues are unbounded first-in first-out queues (all sends use one priority,
  platform/PosixMessageQueue.cpp:104; `mq_send` in POSIX.1-2008).
* The usage discipline is `Protocol.Enabled`: schedule only a timer that is in neither heap nor
  queue, with a callback object not used before if it has none; stop, restart and delete only
  when no message of the timer is under way; do not restart a cancelled timer.
  `Protocol.ScheduleExact` and `Protocol.GuardsExact` show what the invariant needs of these. A
  callback does not touch timers.
* A Timer pointer is a Timer object that lies in one pool slot for good; a callback pointer is
  the identity of a callback object.

## Model

| member | source | states |
|---|---|---|
| `HeapOrder.SiftUpRestores` | platform/TimerMinHeap.cpp:58-78 | sifting up restores a heap whose only bad edge leads into the sifted slot, equal keys swapped or not, and loses no timer |
| `HeapOrder.UpIterationsLogarithmic` | platform/TimerMinHeap.cpp:58-78 | the loop runs at most log2(index + 1) times |
| `HeapOrder.InsertCorrect` | platform/TimerMinHeap.cpp:43-87 | adding to any heap gives a heap with the old entries and the new one |
| `HeapOrder.SiftDownWrittenRestoresPairs` | platform/TimerMinHeap.cpp:152-219 | as written: every edge is good afterwards except possibly the one into a lone left child in the last slot; contents kept |
| `HeapOrder.SiftDownWrittenLoneChild` | platform/TimerMinHeap.cpp:184-189 | as written: that edge is bad exactly when the sifted entry comes to rest above it and is larger, read off the array beforehand |
| `HeapOrder.SiftDownWrittenExact` | platform/TimerMinHeap.cpp:152-219 | as written: the result is a heap if and only if that trap is not set |
| `HeapOrder.SiftPathFirstStep` | platform/TimerMinHeap.cpp:191-212 | the path of a sift, checked upward slot by slot, is the path taken downward by smaller children |
| `HeapOrder.SiftDownRestores` | platform/TimerMinHeap.cpp:152-219 | as meant: sifting down restores the heap and loses no timer |
| `HeapOrder.SiftDownWrittenTakes` | platform/TimerMinHeap.cpp:191-212 | as written: the right child goes up when it is smaller than its parent and no larger than the left one, the left one when it is smaller than both, and the sift goes on below |
| `HeapOrder.SiftDownWrittenRests` | platform/TimerMinHeap.cpp:191-217 | as written: when neither child is to go up nothing moves |
| `HeapOrder.EqualChildren` | platform/TimerMinHeap.cpp:194-203 | keys 1, 2, 2, 3, 5 minus the top become 2, 2, 5, 3, a heap |
| `HeapOrder.LeastRises` | platform/TimerMinHeap.cpp:58-78 | an entry no later than any other rises to the root, past equal ones, in as many rounds as the logarithmic bound allows |
| `HeapOrder.RootIsLeast` | platform/TimerTask.cpp:94-95 | slot 0 of a heap holds a least firing time |
| `HeapOrder.RemoveWrittenExact` | platform/TimerMinHeap.cpp:89-150 | as written: removal at any slot leaves a heap if and only if the slot was the last, or the moved timer is not below the hole's parent and the trap is not set; contents right in every case |
| `HeapOrder.RemoveWrittenContents` | platform/TimerMinHeap.cpp:116-136 | as written: removal takes out the entry of its slot and no other, whatever the order |
| `HeapOrder.TopRemovalWritten` | platform/TimerMinHeap.cpp:96-98 | as written: after taking the top, slot 0 is least unless exactly two timers remain in the wrong order; a full heap when the new count is odd |
| `HeapOrder.TopRemovalWrittenCounterexample` | platform/TimerMinHeap.cpp:184 | three timers whose heap order is lost by taking the top |
| `HeapOrder.RemovalWrittenCounterexample` | platform/TimerMinHeap.cpp:116-136 | seven timers whose heap order is lost because the moved timer is not sifted up |
| `HeapOrder.SiftUpContents` | platform/TimerMinHeap.cpp:58-78 | sifting up loses no timer, whatever the order |
| `HeapOrder.RemoveMeantCorrect` | platform/TimerMinHeap.cpp:105-150 | as meant: removal at any slot leaves a heap with exactly that entry gone |
| `HeapOrder.RepairAgrees` | platform/TimerMinHeap.cpp:116-136 | where a removal as written leaves a heap, the repair changes nothing |
| `HeapOrder.DrainSorts` | platform/TimerMinHeap.cpp:89-103 | taking the top until nothing is left yields all entries in order of firing time |
| `HeapSearch.SearchWrittenExact` | platform/TimerMinHeap.cpp:105-150 | as written, for every count: exactly the slots up to `Reach` are looked at, stale ones included, and the first that matches is found |
| `HeapSearch.SearchWrittenMissesLast` | platform/TimerMinHeap.cpp:116-148 | as written: a timer is found if and only if it is not in the last slot or there are at most three; an absent one never |
| `HeapSearch.SearchWrittenStaleMatch` | platform/TimerMinHeap.cpp:116 | as written, one timer: an absent target is "found" if and only if stale slot 1 holds it |
| `HeapSearch.SearchWrittenCounterexample` | platform/TimerMinHeap.cpp:123-139 | the last of four timers is not found |
| `HeapSearch.SearchWrittenEmpty` | platform/TimerMinHeap.cpp:116-130 | as written, no timer: there is a match if and only if one of stale slots 0 to 2 holds the target |
| `HeapSearch.SearchMeantExact` | platform/TimerMinHeap.cpp:105-150 | as meant: found if and only if in an occupied slot, and in the first that matches |
| `PriorityQueue.ApplyRefines` | include/platform/TimerMinHeap.h:19-27 | one addition or removal keeps the heap and does to its contents what it does to a bag |
| `PriorityQueue.Refinement` | platform/TimerMinHeap.cpp:43-219 | every sequence of additions and removals leaves a heap with the bag's contents and a least entry in slot 0 |
| `WrittenHeap.StepExact` | platform/TimerMinHeap.cpp:43-150 | as written, on any array, a timer in it twice included: an operation goes outside the array if and only if the heap is full, or empty with the timer to remove in a stale slot; otherwise the timers held are right if and only if it was not only in the last slot of four or more that the one to remove was, nor in a stale one beside the only timer |
| `WrittenHeap.WrittenRun` | platform/TimerMinHeap.cpp:43-219 | as written, every run of additions, removals and changes of firing times in place, whatever becomes of the order: the heap holds what the operations leave, with missed removals left out and strayed ones taking the only timer |
| `WrittenHeap.RestartedTwice` | platform/Timer.cpp:227-246 | as written, a restart of the last of four or more leaves the timer in the heap twice |
| `WrittenHeap.RemovedTwice` | platform/TimerMinHeap.cpp:116-118 | removing the only timer twice ends in the read outside the array |
| `MinHeap.TimerMinHeap.SiftUpFrom` | platform/TimerMinHeap.cpp:58-78 | the loop on the array computes `SiftUp`, with its number of iterations |
| `MinHeap.TimerMinHeap.UpHeapify` | platform/TimerMinHeap.cpp:43-87 | on the array: the entry is inserted, in at most log2(n + 1) iterations, within bounds; the whole array makes the addition step of `WrittenHeap` |
| `MinHeap.TimerMinHeap.DownHeapifyFromIndex` | platform/TimerMinHeap.cpp:152-219 | on the array, as written, within bounds, the read of the slot past the last timer included |
| `MinHeap.TimerMinHeap.RemoveFromIndex` | platform/TimerMinHeap.cpp:89-103 | on the array, as written: returns the timer of the slot and removes it |
| `MinHeap.TimerMinHeap.ExamineLevel` | platform/TimerMinHeap.cpp:107-130 | the comparisons of one level of the search, with the count's wrap-around at zero |
| `MinHeap.TimerMinHeap.RemoveSpecificFromIndex` | platform/TimerMinHeap.cpp:105-150 | on the array, as written, for every heap and target: OK and removal at the slot the search finds, or ERROR and nothing changed, or a read outside the array if and only if the heap is empty and one of slots 0 to 2 holds the target; stale slots as the code leaves them; it terminates |
| `MinHeap.TimerMinHeap.RemoveWrittenFromHeap` | include/platform/TimerMinHeap.h:24-27 | as written: the whole array makes the removal step of `WrittenHeap`, or goes outside when that does |
| `MinHeap.TimerMinHeap.RemovesAllButLast` | platform/TimerMinHeap.cpp:105-150 | as written, distinct timers: what is found is any timer but the last of four or more, and exactly that timer is removed |
| `MinHeap.TimerMinHeap.AddToHeap` | include/platform/TimerMinHeap.h:19-22 | on the array: the addition of the refinement |
| `MinHeap.TimerMinHeap.RemoveFromHeap` | include/platform/TimerMinHeap.h:24-27 | as meant, on the array: the removal of the refinement; OK if and only if the timer was in the heap |
| `FreeList.InitialPool` | platform/MemoryPool.cpp:43-49 | the constructor's links make every slot free, in order |
| `FreeList.LiveCount` | platform/MemoryPool.cpp:70 | the counter is the number of slots not on the free list |
| `FreeList.GetCorrect` | platform/MemoryPool.cpp:64-85 | no slot exactly when all are live, else one that was not live, taken from the front of a free list that stays sound |
| `FreeList.PutLive` | platform/MemoryPool.cpp:87-102 | giving back a live slot puts it at the front of the free list |
| `FreeList.PutExact` | platform/MemoryPool.cpp:87-102 | giving back keeps the free list sound if and only if the slot was live, or none was, when nothing is done |
| `FreeList.LastInFirstOut` | platform/MemoryPool.cpp:64-102 | the slot given back last is handed out next |
| `FreeList.PoolRefines` | platform/MemoryPool.cpp:64-102 | takes and gives in any order: the pool is exactly a stack of its free slots, never hands out a live one, and none only when all are live |
| `FreeList.Perform` | platform/MemoryPool.cpp:64-102 | any properly nested use of the pool leaves it exactly as it was, links included |
| `Pool.InsideMapsToIndex` | platform/MemoryPool.cpp:119-138 | any address inside a slot maps to the slot's index |
| `Pool.IndexMapsInside` | platform/MemoryPool.cpp:119-138 | an address of the slot area maps to an index if and only if it lies in that slot |
| `Pool.IndexBelow` | platform/MemoryPool.cpp:119-138 | an address less than a slot in front of the slot area maps to slot 0, one further off wraps around |
| `Pool.SlotsFill` | platform/MemoryPool.cpp:21-38 | the slots lie one after the other, from right behind the management area to the end of the mapped size |
| `Pool.SizeWraps` | platform/MemoryPool.cpp:21-38 | the mapped size is management area and slots together, modulo 2^32 |
| `Pool.SlotsDisjoint` | platform/MemoryPool.cpp:21-38 | if the pool fits in 32 bits: slots overlap neither each other nor the management area and end within the mapped size |
| `Pool.MemoryPool.constructor` | platform/MemoryPool.cpp:40-49 | the loop builds the initial pool |
| `Pool.MemoryPool.GetFromPool` | platform/MemoryPool.cpp:64-85 | in place: null exactly when all slots are live, else a new live slot |
| `Pool.MemoryPool.RemoveFromPool` | platform/MemoryPool.cpp:87-102 | in place: sound if and only if the slot was live; then it is free |
| `Codec.RoundTrip32` | common/Util.cpp:132-144 | network byte order of 32-bit numbers is read back exactly |
| `Codec.RoundTrip64` | common/Util.cpp:102-115 | and of 64-bit numbers, most significant half first |
| `Codec.SignedRoundTrip` | common/Util.cpp:159-181 | and of signed 32-bit numbers in two's complement |
| `Codec.UnsplitSplit24` | common/Util.cpp:274-289 | splitting into three bytes keeps the low 24 bits and nothing else |
| `Codec.SplitUnsplit24` | common/Util.cpp:274-289 | joining three bytes and splitting again gives the same bytes |
| `Codec.NetworkOrder` | common/Util.cpp:132-136 | the four bytes are the digits of the number in base 256, the most significant first |
| `Codec.NetworkOrder64` | common/Util.cpp:102-107 | and so are the eight |
| `Codec.NetworkOrder24` | common/Util.cpp:274-279 | and the three, of the low 24 bits |
| `Codec.SerializeUINT32ToCharBuf` | common/Util.cpp:132-136 | writes four bytes in place and no others |
| `Codec.SerializeUINT64ToCharBuf` | common/Util.cpp:102-107 | writes eight bytes in place and no others |
| `Codec.DeserializeUINT64FromCharBuf` | common/Util.cpp:109-115 | reads the two halves back |
| `Codec.MessageRoundTrip` | include/platform/PosixMessageQueueObject.h:32-53 | sender and pool index of an expiry message are read back exactly |
| `Codec.MessageLayout` | include/platform/PosixMessageQueueObject.h:32-39 | the 16 bytes name sender, event and index in this order, each in network byte order |
| `Codec.PosixMessageQueueObject.SerializeToCharBuf` | include/platform/PosixMessageQueueObject.h:32-39 | fills the 16-byte buffer with the encoding |
| `Codec.PosixMessageQueueObject.DeserializeFromCharBuf` | include/platform/PosixMessageQueueObject.h:41-53 | sets sender and index from the buffer and leaves the event alone |
| `Streams.TextRoundTrip` | common/Util.cpp:20-40 | a string is read back if and only if it holds no NUL, whatever the buffer held |
| `Streams.FieldRoundTrip` | common/Util.cpp:66-88 | any one field is read back if and only if it is not a string with a NUL |
| `Streams.FieldLayout` | common/Util.cpp:20-267 | the bytes of every kind of field: numbers in network byte order and two's complement, the three-byte array in reverse, a string up to its first NUL, padding as zeros |
| `Streams.StreamRoundTrip` | common/Util.cpp:20-267 | any list of fields written back to back, every string from a buffer of its own, is read back exactly, from exactly the bytes written, if and only if no string in it holds a NUL |
| `Streams.CopyText` | common/Util.cpp:24 | the copy stops at the first NUL and leaves the rest of the buffer |
| `Streams.SerializeString` | common/Util.cpp:20-28 | appends as many bytes as the string is long, junk after an inner NUL |
| `Streams.DeserializeString` | common/Util.cpp:30-40 | reads the given number of bytes and keeps those before the first NUL |
| `Streams.SerializePadding` | common/Util.cpp:42-51 | appends that many zero bytes |
| `Streams.DeserializePadding` | common/Util.cpp:53-60 | skips that many bytes |
| `Streams.SerializeUINT64` | common/Util.cpp:66-70 | appends the encoding, most significant half first |
| `Streams.DeserializeUINT64` | common/Util.cpp:72-76 | reads the two halves back |
| `Streams.SerializeSINT64` | common/Util.cpp:78-82 | appends the encoding, signed half first |
| `Streams.DeserializeSINT64` | common/Util.cpp:84-88 | reads the signed half and the other back |
| `Streams.SerializeUINT32` | common/Util.cpp:121-130 | appends four bytes in network order |
| `Streams.DeserializeUINT32` | common/Util.cpp:146-157 | reads the next four bytes |
| `Streams.SerializeSINT32` | common/Util.cpp:159-168 | appends the two's complement |
| `Streams.DeserializeSINT32` | common/Util.cpp:170-181 | reads it back with its sign |
| `Streams.Serialize3ByteUnsignedChar` | common/Util.cpp:211-226 | appends the three bytes in reverse |
| `Streams.DeserializeTo3ByteUnsignedChar` | common/Util.cpp:228-243 | reads them into the array in reverse |
| `Streams.SerializeUINT8` | common/Util.cpp:249-257 | appends the byte |
| `Streams.DeserializeUINT8` | common/Util.cpp:259-267 | reads the next byte |
| `TimerUtils.AbsoluteToRelativeExact` | platform/TimerUtils.cpp:30-46 | an absolute time is converted exactly if and only if it is not past; converting back always returns it |
| `TimerUtils.TimeoutExact` | platform/TimerUtils.cpp:19-28 | a timeout is counted from now if and only if the sum fits in 64 bits; otherwise the time is 2^64 less, and already past |
| `TimerUtils.FuzzyWindow` | platform/Timer.cpp:153-154 | a fuzzy one-shot fires in (now + x1, now + x2] if and only if now plus the drawn timeout fits in 64 bits |
| `TimerUtils.FuzzyWindowAlways` | platform/Timer.cpp:153-154 | it does so whatever the draw if and only if now + x2 fits |
| `TimerUtils.FuzzyAbsoluteWindow` | platform/Timer.cpp:130-155 | with absolute bounds and three clock readings it fires in (a1, a2 + (c3 - c2)] |
| `Protocol.Next` | platform/Timer.cpp:103-413 | every step the discipline allows keeps the invariant |
| `Protocol.StepKeepsInvariant` | platform/TimerTask.cpp:86-164 | the same, for each kind of step |
| `Protocol.ReachedTimersAreLive` | platform/TimerTask.cpp:95-127 | every timer reached through the heap or a message is a live slot |
| `Protocol.OthersUntouched` | platform/Timer.cpp:196-283 | a step leaves every timer but its own as it was, in fields, heap and queues |
| `Protocol.ScheduleExact` | platform/Timer.cpp:103-193 | scheduling keeps the invariant if and only if the timer is in neither heap nor queue and the callback, if it needs one, is neither deleted nor in use |
| `Protocol.GuardsExact` | platform/Timer.cpp:218-345 | what stop, delete and restart need, as if-and-only-if |
| `Protocol.AbsoluteFirstTime` | platform/Timer.cpp:157-160 | an absolute first time is met if and only if the member `first` already holds it; a new timer is due at once |
| `Protocol.AbsoluteFirstTimeCounterexample` | platform/Timer.cpp:157-160 | a new timer asked to fire at time 1000 is due at time 0 |
| `Scheduling.FuzzyFiresBetween` | platform/Timer.cpp:130-155 | a fuzzy timer fires later than the first time asked for and no later than the second, relative or absolute |
| `Scheduling.FuzzyReachesAll` | platform/Timer.cpp:153-154 | every time between them is the firing time for some draw |
| `Scheduling.FuzzyReversed` | platform/Timer.cpp:149-150 | bounds the wrong way round leave the firing time as it was |
| `Scheduling.FuzzyPast` | platform/Timer.cpp:139-150 | and so does an absolute first bound that is past |
| `Scheduling.FuzzyRelativeExact` | platform/Timer.cpp:153-154 | with relative bounds the step keeps the window if and only if the drawn sum fits in 64 bits |
| `Scheduling.TimeoutFires` | platform/Timer.cpp:161-165 | a relative first time is met if and only if the sum fits, and remembered |
| `Scheduling.FirstRemembered` | platform/Timer.cpp:157-160 | absolute and fuzzy schedules keep the remembered first time; an absolute one fires at it |
| `Scheduling.TimeoutAsked` | platform/Timer.cpp:167-174 | the timeout to re-arm with leads to the time asked for |
| `Scheduling.ScheduleKeeps` | platform/Timer.cpp:113-128 | type, limit, task and callback of the timer after a schedule, and the count at zero |
| `Scheduling.SettingsKept` | platform/Timer.cpp:218-283 | in every run a timer keeps its type, limit, timeout, remembered first time and task until it is scheduled anew |
| `Scheduling.OneShotAtTimeoutDue` | platform/Timer.cpp:51-61 | due the timeout from now |
| `Scheduling.OneShotBetweenTimeoutsDue` | platform/Timer.cpp:74-83 | due between the two timeouts, at any time there for some draw |
| `Scheduling.OneShotBetweenAbsoluteTimesDue` | platform/Timer.cpp:63-72 | due between the two times, at any time there for some draw |
| `Scheduling.AtAbsoluteTimeDue` | platform/Timer.cpp:39-92 | one-shot and periodic at an absolute time fire at the remembered first time |
| `Scheduling.NewIsUnscheduled` | platform/Timer.cpp:24-32 | a new timer is of type Invalid, Idle, without a callback, and of the task it was made for |
| `Scheduling.UnscheduledDelete` | platform/Timer.cpp:292-298 | deleting a timer that was never scheduled asks nothing of the heap, whatever its stale slots hold |
| `Scheduling.NewThenDelete` | platform/Timer.cpp:285-345 | and so from new on, through every step until it is scheduled |
| `ProtocolRuns.EveryRun` | platform/TimerTask.cpp:86-164 | every run: a timer is at most once in heap and queues, both name live slots, heap timers are Active or cancelled Idle (never Done), and heap count <= live slots <= 1024 |
| `ProtocolRuns.HeapHasRoom` | platform/TimerMinHeap.cpp:50-51 | a live timer outside the heap finds a free heap slot |
| `ProtocolRuns.HeadMessage` | platform/Timer.cpp:347-351 | the timer a message names is live, scheduled and out of the heap |
| `ProtocolRuns.CallbacksFreedOnce` | platform/Timer.cpp:202-212 | in every run no callback object is deleted twice or run after its deletion |
| `Accounts.CallbackNotLost` | platform/Timer.cpp:196-316 | in every run a timer keeps its callback until it is seen to be deleted, once, and not run afterwards |
| `Accounts.EveryDeletionSeen` | platform/Timer.cpp:202-316 | in every run exactly the callbacks seen to be deleted are gone |
| `Accounts.TimersBalance` | platform/Timer.cpp:323-345 | in every run a slot is given back as often as it was taken, but for the timer that lives in it |
| `ProtocolRuns.MessagesInOrder` | platform/TimerTask.cpp:126-127 | in every run each task receives exactly the messages sent to it, in order of firing |
| `ProtocolRuns.DeleteAfterStop` | platform/Timer.cpp:251-303 | a run within the discipline in which a delete removes from an empty heap a timer it held before |
| `Lifetimes.MessagesToOwnTask` | platform/TimerTask.cpp:126-127 | in every run a timer's messages go to the task it was made for and to no other |
| `Lifetimes.CancelledRun` | platform/Timer.cpp:356-387 | deliveries plus places left never exceed the places a cancelled timer was in, with equality unless it is stopped or deleted |
| `Lifetimes.CancelIsFinal` | platform/Timer.cpp:196-216 | after cancel the callback never runs, at most one message is delivered, and then the timer is in neither heap nor queue |
| `Lifetimes.KeptRun` | platform/Timer.cpp:347-413 | as long as a timer is not cancelled, deleted or scheduled anew, however often stopped and restarted, its callback runs once per message; it is freed with its callback exactly at the last message of its lifetime, or never |
| `Lifetimes.ReachedIsKept` | platform/Timer.cpp:373-404 | in every reached state a timer with a callback has not used up its firings, so what is proved of kept timers holds of it |
| `Lifetimes.ReachedRun` | platform/Timer.cpp:347-413 | the same life story from any state the service reaches |
| `Lifetimes.PeriodicRunsOneMore` | platform/Timer.cpp:390-404 | limit N in 1 .. 2^32 - 2: N + 1 callbacks whatever stops and restarts come between, and freed exactly with the last |
| `Lifetimes.PeriodicWithoutLimit` | platform/Timer.cpp:390-396 | limit 0 or 2^32 - 1: never freed |
| `Lifetimes.OneShotRunsOnce` | platform/Timer.cpp:354-371 | a one-shot runs once and is freed with it |
| `Lifetimes.FiringsSpaced` | platform/Timer.cpp:265-279 | consecutive firings are at least a timeout apart: of an undisturbed timer always, of one stopped and restarted if it waits no longer than its timeout to begin with |
| `Lifetimes.FiringsCounted` | platform/TimerTask.cpp:122 | whatever stops and restarts come between, a timer counts its firings, modulo 2^32 |
| `Lifetimes.PeriodicFiringTimes` | platform/Timer.cpp:94-101 | the k-th firing is no earlier than k timeouts after scheduling, stops and restarts or not |
| `Pauses.RestingRun` | platform/Timer.cpp:251-263 | a timer in neither heap nor queue stays so, with no firing, message or callback, until it is scheduled or restarted |
| `Pauses.StopRests` | platform/Timer.cpp:251-263 | after stop or delete nothing of the timer fires or is delivered until it is started again |
| `Pauses.RestartDelays` | platform/Timer.cpp:218-249 | after a restart the k-th firing is no earlier than k timeouts later, whether the timer was running or stopped |
| `Backlog.IterationProgress` | platform/TimerTask.cpp:104-145 | with a least top, an iteration makes the backlog smaller, or there is none and nothing changes |
| `Backlog.BacklogClears` | platform/TimerTask.cpp:104-145 | with the clock standing still, 2 x (due timers) iterations leave no due timer, zero timeouts included |
| `Backlog.BacklogCanClear` | platform/TimerTask.cpp:86-164 | from every state there is such a run |
| `Backlog.BacklogQueued` | platform/TimerTask.cpp:94-127 | those iterations only put what they fire at the ends of the queues |
| `FiringOrder.FiredInOrder` | platform/TimerTask.cpp:94-127 | in every run with a least timer in slot 0, through ticks, deliveries and calls: timers fire in nondecreasing order of firing time, unless one is put into the heap before the one fired last |
| `FiringOrder.OrderExact` | platform/Timer.cpp:157-165 | the timer task can never go on to fire a timer before the last one if and only if none is put into the heap before the last one |
| `FiringOrder.InTimeIsEnough` | platform/Timer.cpp:161-165 | none is when no absolute first time has gone by, no fuzzy one keeps an old time, and no sum wraps around |
| `FiringOrder.OrderLost` | platform/Timer.cpp:159 | a run of two timers in which the second fires, with time 0, after the first with time 5 |
| `FiringOrder.TasksReceiveInOrder` | platform/TimerTask.cpp:126-127 | from the start of the service every task receives, one for one, the timers fired for it, in order of firing time |
| `Progress.DueIsFired` | platform/TimerTask.cpp:104-127 | a running timer whose time has come is fired by clearing the backlog |
| `Progress.CanRunOut` | platform/Timer.cpp:373-404 | a finite running timer can always be brought to its end without touching it |
| `Progress.PeriodicRunsOut` | platform/Timer.cpp:373-404 | every run of a periodic timer that does not alter it extends to one with exactly N + 1 callbacks and the timer freed, untouched but for a restart if it is stopped |
| `Progress.OneShotRunsOut` | platform/Timer.cpp:354-371 | every run of a one-shot that does not alter it extends to one with one callback and the timer freed |
| `Progress.PeriodicNeverEnds` | platform/Timer.cpp:390-396 | limit 0 or 2^32 - 1: every run that does not alter the timer extends to one with any number of callbacks |
| `Cancellation.CancelHoldsBack` | platform/Timer.cpp:213 | a cancelled timer is Idle; the iteration that finds it fires and sends nothing, and puts it back a timeout later when it is due |
| `Cancellation.CancelDelaysMessage` | platform/TimerTask.cpp:135-145 | in every run its one message is sent no earlier than a timeout after it was both due and cancelled |
| `Cancellation.CancelledComesToRest` | platform/TimerTask.cpp:135-145 | a cancelled timer can always be brought out of heap and queues untouched, with one message if it was in either, and no callback |
| `WrittenEngine.StepIsProtocol` | platform/Timer.cpp:103-413 | as written: a step is the protocol's if and only if its removal does not go amiss, and then array and timers stay coupled |
| `WrittenEngine.AmissExact` | platform/TimerMinHeap.cpp:105-150 | a removal goes amiss if and only if a stop, restart or delete asks for the timer in the last slot of four or more, or for one not in the heap that a stale slot holds when at most one timer is left |
| `WrittenEngine.WrittenRefines` | platform/TimerTask.cpp:86-164 | as written: a run in which none goes amiss is a run of the protocol, whatever becomes of the heap order |
| `WrittenEngine.StopTakesOut` | platform/Timer.cpp:251-263 | as written: a stop takes a timer out of the heap if and only if it is not in the last slot of four or more |
| `WrittenEngine.MissedCall` | platform/Timer.cpp:251-345 | as written: a missed stop or delete leaves the timer in the heap, stopped with its callback, or no longer live |
| `MissedStop.StoppedCallbackRuns` | platform/TimerTask.cpp:104-145 | as written: a run within the discipline in which a stopped timer is re-armed and its callback runs |
| `Timers.Timer.SetSchedule` | platform/Timer.cpp:113-176 | in place: the fields as the protocol's schedule step sets them |
| `Timers.Timer.SetNextFiring` | platform/Timer.cpp:275-278 | in place: re-armed a timeout from now |
| `TimerEngine.SlotRecovered` | platform/TimerTask.cpp:113-127 | slot to address to index to message and back is the identity |
| `TimerEngine.TimerSystem.constructor` | platform/Timer.cpp:11-23 | the empty engine; `BlankIsEmpty` turns it into the protocol's start state |
| `TimerEngine.TimerSystem.EveryHistory` | platform/TimerTask.cpp:86-164 | of the engine in memory, after any history of operations: no callback run or deleted twice over, messages received in order, heap within bounds and without Done timers |
| `TimerEngine.TimerSystem.EveryDeletion` | platform/Timer.cpp:202-345 | of the engine in memory: callbacks gone are those seen to be deleted; slots given back as often as taken, but for those live in the pool |
| `TimerEngine.TimerSystem.EveryMessage` | platform/TimerTask.cpp:113-127 | every message waiting in memory names the timer task, 2, as its sender, and the pool slot of its timer |
| `TimerEngine.TimerSystem.EveryHistoryInOrder` | platform/TimerTask.cpp:94-127 | of the engine in memory: timers fire, and tasks receive them, in order of firing time, if none was put into the heap before the one fired last |
| `TimerEngine.TimerSystem.NewTimer` | platform/Timer.cpp:323-334 | in memory: the protocol's step for new, or null exactly when 1024 timers are live; the new timer is of type Invalid |
| `TimerEngine.TimerSystem.Schedule` | platform/Timer.cpp:103-193 | in memory: the protocol's schedule step |
| `TimerEngine.TimerSystem.Cancel` | platform/Timer.cpp:196-216 | in memory: the protocol's cancel step and what is seen of it |
| `TimerEngine.TimerSystem.Restart` | platform/Timer.cpp:218-249 | in memory: the protocol's restart step |
| `TimerEngine.TimerSystem.Stop` | platform/Timer.cpp:251-263 | in memory: the protocol's stop step |
| `TimerEngine.TimerSystem.ChangeFiringTime` | platform/Timer.cpp:265-283 | in memory: new timeout and firing time, back in the heap |
| `TimerEngine.TimerSystem.Destructor` | platform/Timer.cpp:285-321 | in memory: out of the heap unless unscheduled or Done, callback deleted |
| `TimerEngine.TimerSystem.Delete` | platform/Timer.cpp:285-345 | in memory: the protocol's delete step and what is seen of it |
| `TimerEngine.TimerSystem.SendExpiry` | platform/TimerTask.cpp:113-127 | the queue of the callback context task gets a message that decodes to the timer's slot and to sender 2, the timer task |
| `TimerEngine.TimerSystem.Fire` | platform/TimerTask.cpp:111-134 | in memory: counted, out of the heap, Done, and the message sent |
| `TimerEngine.TimerSystem.IterateOnce` | platform/TimerTask.cpp:86-164 | in memory: one iteration is one protocol step on a least top, or a poll of an empty heap |
| `TimerEngine.TimerSystem.ProcessACallback` | platform/Timer.cpp:347-415 | in memory: callback run, then re-armed or freed; ERROR if and only if cancelled or unscheduled |
| `TimerEngine.TimerSystem.Receive` | include/platform/PosixMessageQueueObject.h:41-53 | the oldest message, sent by the timer task, is decoded to the timer that was fired |
| `TimerEngine.TimerSystem.DeliverMessage` | platform/Timer.cpp:347-415 | in memory: the protocol's delivery step and what is seen of it |

## Left out

- POSIX semaphores, mutexes, threads, shared-memory mapping, `fork` and the message-queue calls themselves: foreign code, replaced by the assumptions above.
- Printing, `errno` reports, singleton creation and process-local addresses: no logic.
- The real clock and `rand()`: arbitrary non-decreasing readings and arbitrary draws.
- The two-argument `Timer` constructor leaves most fields unset (platform/Timer.cpp:34-37): the model takes the default constructor's values, and 0 for the firing time, limit and count that that one leaves unset, too.
- One-shots pass an unset timeout to `schedule` (platform/Timer.cpp:41, 53): the model allows any timeout.
- A fuzzy one-shot with equal bounds divides by zero (platform/Timer.cpp:153): `Protocol.ArgsOk` excludes it.
- `getFromPool` copies the link of the sentinel before it checks whether the pool is used up (platform/MemoryPool.cpp:68), one element past the links; the copy is not used, and the model reads only after the check.
- MinHeap.TimerMinHeap.RemoveSpecificFromIndex: stops, with result None, where the code goes on to read the array at 2^32 - 1; what that read finds is not defined.
- Lifetimes.PeriodicFiringTimes: assumes that clock plus timeout stays below 2^64; otherwise the sum wraps around and the timer is due at once (`TimerUtils.TimeoutExact`).
- Cancellation.CancelDelaysMessage: makes the same assumption.
- Lifetimes.FiringsSpaced: makes the same assumption.
- Pauses.RestartDelays: makes the same assumption.
- TimerUtils.FuzzyAbsoluteWindow: assumes that the end of the window stays below 2^64, which it does when the clock is read once.
- The floating-point serializers: `deserializeFLT32` converts numerically instead of reinterpreting the bytes (common/Util.cpp:202), so there is no round trip.
- UUID, hostname, address and file helpers in `common/Util.cpp`, `include/platform/TimedExpiryBuffer.h`, and the test programs.
