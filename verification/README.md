# Verified models of the repository's algorithms and protocols

A Dafny 4.11 project that models the algorithms and concurrent protocols of this collection and
proves what they are for. `dafny verify dfyconfig.toml` checks everything.

| file | models |
|---|---|
| `Tournament.dfy`, `KWayMerge.dfy`, `MergeOrder.dfy`, `LoserTree.dfy` | the loser tree and the merge of k linked lists (`ds/loser-tree`) |
| `SemProdCons4.dfy`, `SemProdCons3.dfy`, `SemMultibuffer.dfy` | the bounded buffers on POSIX semaphores (`ipc/src/pxsem`) |
| `MutexProdCons3.dfy` | the producers and the consumer on two mutexes and a condition variable (`ipc/src/mutex`) |
| `MqNotify.dfy` | message-queue notification, by `sigwait` and by a flag and `sigsuspend` (`ipc/src/pxmsg`) |
| `HeapOrder.dfy`, `TimerHeap.dfy`, `Timestamp.dfy` | the timer heap and its time stamps (`ds/timer-heap`) |
| `Interpreter.dfy` | the expression parser and interpreter (`dp/interpreter/release`) |
| `Counting.dfy` | counting threads by program counter; used by the protocol proofs |

**Programs with threads** are interleaved step systems. A state holds the shared variables, the
semaphores or locks and one program counter for each thread, the number of threads being
arbitrary; a step is one semaphore, lock or shared-memory action; a run is a schedule, the list of
the threads that step. `sem_wait`, `sem_post`, mutexes, condition variables, `sigsuspend` and
`mq_notify` behave as POSIX.1-2017 (System Interfaces) says, spurious wake-ups included. The
invariants, the bounds and delivery are proved of every schedule. Each semaphore is tied to the
number of threads that hold or owe its tokens. In `sem_prodcons4.c` leaving producers post `nstored`
with no item behind it, so that count is off by the number of producers that have left; the proof
turns on those tokens existing only once `nput >= nitems`.

**Programs on data** are classes with the source's fields. Each method is proved equal to a
function on sequences, and the laws are proved of that function: the merge, for instance, rests on
a recursive predicate `Wins` that says who wins each subtree of the loser tree, ties included, and
on `Adjust` restoring it along one path. The nodes output are then equal, one by one, to those of a
tree of two-way merges, `MergeOrder.Merged`, that mentions no array.

**What the proofs found.** Where a property one would expect does not always hold, the exact
condition is proved.

- The receivers of `mqnotifysig3.c` and `mqnotifysig4.c` lose no wake-up if and only if the queue
  is empty when they first register. A message that is already queued then makes the receiver
  sleep for ever (`MqNotify.StrandedExactly`, `MqNotify.SleepsForEver`, `MqNotifyFlag.FStrandedExactly`,
  `MqNotifyFlag.FSleepsForEver`).
- `mergeKLists` reads `lists` out of bounds, at the sentinel's index, if and only if a list but the
  first starts with INT_MIN (`LoserTree.LoserTree.MergeKLists`). Creation then leaves the sentinel
  in the place of that list (`Tournament.CreatedExactly`, `Tournament.TiedLeafIsLost`), and its key
  stays the least.
- The merge stops at INT_MAX, and what it returns ends in the INT_MAX nodes of the list output last.
  No node is missing if and only if every list that holds an INT_MAX is the one the last node of
  `Merged` comes from (`LoserTree.LoserTree.MergeKLists`). If one list has the greatest value below
  INT_MAX, that means that no other list holds an INT_MAX (`KWayMerge.TopCompleteExactly`); two
  lists that hold one always lose a node (`KWayMerge.TwoMaxLoses`); `[1, INT_MAX]` with `[2]` loses
  one (`MergeOrder.MaxBehindSmaller`). A tie for that greatest value is decided by the tree, which
  takes equal values from the side it took from last: `[v, INT_MAX]` with `[v]` loses the INT_MAX,
  in the other order it is kept (`MergeOrder.MaxBehindTie`).
- `sem_prodcons4.c` can block for ever if and only if it is started with consumers and no producer,
  or with producers, no consumer and at least NBUFF items (`SemProdCons4.DeadlockExactly`).
- `Analyse` has no defined result for an empty string or a leading operator, and reads a null
  character as the operand of a trailing operator. An operand where an operator is due starts the
  parse afresh: the result is the tree of what follows, and the nodes built before are leaked, so
  that `Release` frees all nodes if and only if every odd position holds an operator
  (`Interpreter.StartFacts`, `Interpreter.AnalyseAndRelease`).
- Timers with one deadline do not expire in the order of their addition: four of them come out as
  the first, the third, the second and the fourth (`HeapOrder.TiesOutOfOrder`).
- Adding a difference back gives the second time stamp if and only if the difference fits 64 signed
  bits or that time stamp is 0 (`Timestamp.RoundTripExactly`).
- `AddTimer` promises to tell whether the new timer is the first to expire, but returns false for
  the first timer of an empty heap; the model follows the code.

## Model

| member | source | states |
|---|---|---|
| Tournament.WinnerPlays | ds/loser-tree/loser-tree.hpp:53-61 | the winner of a subtree is a player at one of its leaves |
| Tournament.WinnerIsLeast | ds/loser-tree/loser-tree.hpp:53-61 | the winner's key is no greater than any key at the subtree's leaves |
| Tournament.ChampionPath | ds/loser-tree/loser-tree.hpp:53-61 | a champion that plays at one leaf only, or is strictly least, has won every match on its path, and each node on it holds the winner beside the path |
| Tournament.AdjustRestores | ds/loser-tree/loser-tree.hpp:53-61 | replaying the path of a changed champion's leaf makes every node again hold the loser between its subtrees' winners, slot 0 the winner, and gives ties on the path to the challenger |
| Tournament.AdjustMultiset | ds/loser-tree/loser-tree.hpp:53-61 | whatever the array, `Adjust` puts the challenger in and takes what slot 0 held out, and permutes the rest |
| Tournament.ChampionIsLeast | ds/loser-tree/loser-tree.hpp:45-45 | slot 0 is the index of a least key among the players, a list at its own leaf or the sentinel where it plays |
| Tournament.ReplayKeepsFull | ds/loser-tree/loser-tree.hpp:46-48 | rewriting the champion's key and replaying keeps a correct tournament over the same players |
| Tournament.CreatedIsPlayed | ds/loser-tree/loser-tree.hpp:63-72 | after `Adjust` for the leaves k-1 down to i the array is, slot 0 aside, exactly the tournament in which the sentinel stands in for the leaves below i and for those that tie with it |
| Tournament.CreatedPlayers | ds/loser-tree/loser-tree.hpp:63-72 | and its array holds exactly those players |
| Tournament.CreatedIsFull | ds/loser-tree/loser-tree.hpp:63-72 | `CreateLoserTree` gives, for all keys, the correct tournament in which the sentinel stands in for every later leaf that ties with it |
| Tournament.CreatedExactly | ds/loser-tree/loser-tree.hpp:63-72 | the array is a permutation of 0..k-1 if and only if no leaf but the first has the sentinel's key |
| Tournament.TiedLeafIsLost | ds/loser-tree/loser-tree.hpp:63-72 | a later leaf tied with the sentinel is not in the array, the sentinel is, and it is champion unless leaf 0 ties too |
| LoserTree.LoserTree.Adjust | ds/loser-tree/loser-tree.hpp:53-61 | the loop computes the specified replay, whatever the array |
| LoserTree.LoserTree.CreateLoserTree | ds/loser-tree/loser-tree.hpp:63-72 | the sentinel's key is set and the array becomes the specified creation, whatever it held before |
| LoserTree.LoserTree.Output | ds/loser-tree/loser-tree.hpp:82-86 | the champion's node is linked behind the tail and its list advances; no other link changes |
| LoserTree.LoserTree.Append | ds/loser-tree/loser-tree.hpp:82-86 | the output chain grows by the champion's node and keeps its links |
| LoserTree.LoserTree.Relink | ds/loser-tree/loser-tree.hpp:82-86 | an output moves one node from its list to the end of the output chain and keeps all other chains |
| LoserTree.LoserTree.Refill | ds/loser-tree/loser-tree.hpp:47-48 | `input` and `Adjust` re-establish a full tree over the new heads |
| LoserTree.LoserTree.Round | ds/loser-tree/loser-tree.hpp:45-49 | one round keeps the whole merge invariant |
| LoserTree.LoserTree.Build | ds/loser-tree/loser-tree.hpp:35-44 | sizing, inputs and creation give a full tree over the heads, whatever the object held |
| LoserTree.LoserTree.ChampionSeat | ds/loser-tree/loser-tree.hpp:45-49 | the champion is outside the lists only where a later list starts with INT_MIN |
| LoserTree.LoserTree.TiedChampion | ds/loser-tree/loser-tree.hpp:45-49 | while a later list ties with the sentinel, the champion's key is INT_MIN, so the loop does not end |
| LoserTree.LoserTree.MergeKLists | ds/loser-tree/loser-tree.hpp:31-51 | for any k and any sorted disjoint lists: it runs out of bounds if and only if a later list starts with INT_MIN; otherwise the nodes output are those of the tree of two-way merges in that order, and the result is a null-terminated sorted list of them, without repetition, followed by the INT_MAX nodes of the list output last; no node is missing exactly under the stated condition on the input, and without INT_MAX each list is in the result whole and in order |
| KWayMerge.ProgressStep | ds/loser-tree/loser-tree.hpp:45-49 | an output extends the interleaving: each list's nodes stay in order and none is repeated |
| KWayMerge.OrderedStep | ds/loser-tree/loser-tree.hpp:45-49 | outputting a least head keeps the output sorted and below all that remains |
| KWayMerge.ResultSorted | ds/loser-tree/loser-tree.hpp:31-51 | the returned list is sorted and repeats no node |
| KWayMerge.ResultComplete | ds/loser-tree/loser-tree.hpp:31-51 | without INT_MAX the returned list holds every input node exactly once and keeps each list's order |
| KWayMerge.ResultCompleteExactly | ds/loser-tree/loser-tree.hpp:31-51 | no node is missing if and only if every list with an INT_MAX is the one the last output comes from |
| KWayMerge.PosIsMax | ds/loser-tree/loser-tree.hpp:45-49 | exactly the nodes below INT_MAX are output |
| KWayMerge.TopIsLast | ds/loser-tree/loser-tree.hpp:45-50 | a list with a value below INT_MAX that is greater than all such values of the others is the one output last |
| KWayMerge.TopCompleteExactly | ds/loser-tree/loser-tree.hpp:31-51 | with such a list, no node is missing if and only if no other list holds an INT_MAX |
| KWayMerge.TwoMaxLoses | ds/loser-tree/loser-tree.hpp:31-51 | two lists that both hold an INT_MAX always lose a node |
| KWayMerge.MaxIsLost | ds/loser-tree/loser-tree.hpp:45-50 | lists of nothing but INT_MAX merge into the empty list |
| MergeOrder.WinnerLeads | ds/loser-tree/loser-tree.hpp:53-61 | the winner of a subtree holds the node that the two-way merges of that subtree output first |
| MergeOrder.RestStep | ds/loser-tree/loser-tree.hpp:45-49 | outputting the winner and replaying its path is one step of the tree of two-way merges, in which ties go to the side taken from last |
| MergeOrder.NothingRests | ds/loser-tree/loser-tree.hpp:45-45 | when the champion's key is INT_MAX the two-way merges have nothing left to output |
| MergeOrder.MergedTwo | ds/loser-tree/loser-tree.hpp:31-51 | two lists are merged as by one two-way merge in which the first list wins the first tie |
| MergeOrder.MaxBehindSmaller | ds/loser-tree/loser-tree.hpp:45-50 | `[1, INT_MAX]` and `[2]` are merged into a list of 1 and 2 without the INT_MAX |
| MergeOrder.MaxBehindTie | ds/loser-tree/loser-tree.hpp:45-50 | `[v, INT_MAX]` and `[v]` lose the INT_MAX in this order and keep it in the other |
| SemProdCons4.InitInv | ipc/src/pxsem/sem_prodcons4.c:22-51 | the initial state satisfies the invariant, for any number of items, producers and consumers |
| SemProdCons4.StepTokensP | ipc/src/pxsem/sem_prodcons4.c:88-109 | every producer step keeps the three token equations, the extra `nstored` tokens included |
| SemProdCons4.StepTokensC | ipc/src/pxsem/sem_prodcons4.c:111-131 | every consumer step keeps the three token equations |
| SemProdCons4.SlotFree | ipc/src/pxsem/sem_prodcons4.c:91-102 | a producer about to store has a free slot |
| SemProdCons4.ItemWaiting | ipc/src/pxsem/sem_prodcons4.c:114-124 | a consumer past its test has an item, even if its token is an extra one |
| SemProdCons4.StepInv | ipc/src/pxsem/sem_prodcons4.c:88-131 | every step of every thread keeps the whole invariant |
| SemProdCons4.AtMostOneCritical | ipc/src/pxsem/sem_prodcons4.c:92-127 | mutual exclusion between all producers and consumers |
| SemProdCons4.Safety | ipc/src/pxsem/sem_prodcons4.c:88-131 | in every reachable state nget <= nput <= nget + NBUFF, the ring holds item j in slot j mod NBUFF, the values read are 0, 1, 2, ... and a consumer about to compare finds the value it expects |
| SemProdCons4.OwnCounts | ipc/src/pxsem/sem_prodcons4.c:88-131 | in every reachable state the counter of each thread is the number of steps in which that thread has put or got an item, but for one not yet counted |
| SemProdCons4.SemaphoresBounded | ipc/src/pxsem/sem_prodcons4.c:42-131 | nempty <= NBUFF and nstored <= NBUFF + producers in every reachable state, below the least SEM_VALUE_MAX for at most MAXNTHREADS producers |
| SemProdCons4.NoDeadlock | ipc/src/pxsem/sem_prodcons4.c:88-131 | with a producer and a consumer, a state where no thread can step has all returned |
| SemProdCons4.WorkDrops | ipc/src/pxsem/sem_prodcons4.c:88-131 | a global measure drops on every step |
| SemProdCons4.EveryMaximalRunFinishes | ipc/src/pxsem/sem_prodcons4.c:53-131 | with at least one producer and one consumer a run has at most 19 steps for each item and 7 for each thread, and a maximal one ends with all threads returned, nput = nget = items, each thread's counter at the number of its own items, the items read in order, and all slots empty |
| SemProdCons4.DeadlockExactly | ipc/src/pxsem/sem_prodcons4.c:88-131 | the exact numbers of threads and items with which a run can block for ever |
| SemProdCons3.StepInv | ipc/src/pxsem/sem_prodcons3.c:80-113 | every step keeps the token equations, the ring contents and the consumer's progress |
| SemProdCons3.Safety | ipc/src/pxsem/sem_prodcons3.c:80-113 | in every run the consumer reads 0, 1, 2, ..., only stored items, finds the value it compares with, and never reads while a producer is in the critical section |
| SemProdCons3.OwnCounts | ipc/src/pxsem/sem_prodcons3.c:80-100 | in every reachable state each producer's counter is the number of items it has put, but for one not yet counted |
| SemProdCons3.NoDeadlock | ipc/src/pxsem/sem_prodcons3.c:80-113 | with a producer, a stuck state has all threads returned |
| SemProdCons3.WorkDrops | ipc/src/pxsem/sem_prodcons3.c:80-113 | a global measure drops on every step |
| SemProdCons3.EveryMaximalRunFinishes | ipc/src/pxsem/sem_prodcons3.c:50-113 | every run has at most 16 steps for each item and 6 for each thread, and a maximal one has consumed 0..nitems-1 in order with all threads returned, each producer's counter at the number of its own items and all tokens back |
| SemProdCons3.DeadlockExactly | ipc/src/pxsem/sem_prodcons3.c:80-113 | a run can block for ever if and only if there is no producer and something to consume |
| SemMultibuffer.Apart | ipc/src/pxsem/sem_multibuffer.c:73-111 | when both threads access a buffer, outside the mutex, it is not the same one |
| SemMultibuffer.StepRead | ipc/src/pxsem/sem_multibuffer.c:81-82 | a read of any allowed length fills its buffer and leaves the chunks not yet written |
| SemMultibuffer.TestSeesEnd | ipc/src/pxsem/sem_multibuffer.c:84-87 | the count read back is 0 exactly at the end of the file |
| SemMultibuffer.StepWrite | ipc/src/pxsem/sem_multibuffer.c:105-105 | what is written next is the next chunk of the file |
| SemMultibuffer.StepInv | ipc/src/pxsem/sem_multibuffer.c:73-111 | every step keeps the invariant |
| SemMultibuffer.Safety | ipc/src/pxsem/sem_multibuffer.c:73-111 | for every file, every way `read` cuts it and every schedule: no two accesses to one buffer at a time, and the output is a prefix of the file |
| SemMultibuffer.StuckIsDone | ipc/src/pxsem/sem_multibuffer.c:73-111 | when neither thread can step, both have returned and the output is the file |
| SemMultibuffer.WorkDrops | ipc/src/pxsem/sem_multibuffer.c:73-111 | a measure drops on every step |
| SemMultibuffer.EveryMaximalRunCopies | ipc/src/pxsem/sem_multibuffer.c:73-111 | every run is finite, with a bound linear in the file, and a maximal one has copied the whole file, with the tokens that are left |
| SemMultibuffer.EveryCuttingRuns | ipc/src/pxsem/sem_multibuffer.c:81-82 | every way to cut the file into non-empty reads of at most BUFFSIZE bytes is that of some complete run |
| MutexProdCons3.StepInv | ipc/src/mutex/mutex_prodcons3.c:62-96 | every step, spurious wake-ups included, keeps the lock counts, the announcement equation and the facts about sleeping |
| MutexProdCons3.Safety | ipc/src/mutex/mutex_prodcons3.c:62-96 | in every run nready + taken + producers between the two sections = nput, a sleeping consumer has nothing to take, and the consumer reads 0, 1, 2, ... from slots already written, all accesses inside the array |
| MutexProdCons3.OwnCounts | ipc/src/mutex/mutex_prodcons3.c:62-82 | in every reachable state each producer's counter is the number of items it has put, but for one not yet counted |
| MutexProdCons3.NoDeadlock | ipc/src/mutex/mutex_prodcons3.c:62-96 | with a producer no wake-up is lost: a stuck state has all threads returned |
| MutexProdCons3.SpuriousIsHarmless | ipc/src/mutex/mutex_prodcons3.c:88-89 | after a spurious wake-up the consumer takes the mutex, finds nothing and sleeps again with nothing changed |
| MutexProdCons3.WorkDrops | ipc/src/mutex/mutex_prodcons3.c:62-96 | every thread step lowers a measure, a spurious wake-up raises it by at most 3 |
| MutexProdCons3.EveryMaximalRunFinishes | ipc/src/mutex/mutex_prodcons3.c:33-96 | a run is bounded linearly in the items and producers plus four steps for each spurious wake-up, and a maximal one with the argument n has consumed 0..m-1 in order and stored them, where m is n cut to the range from 0 to a million, with each producer's counter at the number of its own items |
| MutexProdCons3.DeadlockExactly | ipc/src/mutex/mutex_prodcons3.c:62-96 | a run can block for ever if and only if there is no producer and something to consume |
| MqNotify.StepInv | ipc/src/pxmsg/mqnotifysig4.c:36-58 | every step keeps the wake-up in exactly one place, and nothing stranded |
| MqNotify.SentIsSends | ipc/src/pxmsg/mqnotifysig4.c:36-58 | the record of what entered the queue is the messages of the send events in order |
| MqNotify.Safety | ipc/src/pxmsg/mqnotifysig4.c:36-58 | in every run, whatever the queue held: exactly one of registered, signal pending, receiver about to register; registering never fails; the messages received and then those queued are those the queue held and then those sent, in order, and it is never over its limit |
| MqNotify.EveryRound | ipc/src/pxmsg/mqnotifysig4.c:45-58 | in every run the receiver has been woken once for each drain and once more in the middle of a round, and has returned if and only if it has registered and drained the queue `rounds` times |
| MqNotify.SleepsForEver | ipc/src/pxmsg/mqnotifysig4.c:42-47 | a receiver registered over queued messages never wakes |
| MqNotify.StrandedExactly | ipc/src/pxmsg/mqnotifysig4.c:42-58 | a sleeping receiver with messages queued always has a signal pending if and only if the queue was empty at the first registration |
| MqNotify.StepNearer | ipc/src/pxmsg/mqnotifysig4.c:46-58 | with messages queued, every receiver step comes nearer to the next one or receives it, and no send sets it back |
| MqNotify.Delivers | ipc/src/pxmsg/mqnotifysig4.c:46-58 | in every schedule, with any sends between, the first k queued messages have been received in order once the receiver has made k steps and at most two more |
| MqNotify.EventuallyReceived | ipc/src/pxmsg/mqnotifysig4.c:42-58 | from a first registration on an empty queue and before the last round is over, all that was sent up to any point of any run is received in every continuation with enough receiver steps |
| MqNotify.DrainsAlone | ipc/src/pxmsg/mqnotifysig4.c:46-58 | such schedules exist: a receiver that runs alone never blocks before it has received all that was sent |
| MqNotifyFlag.StepRefines | ipc/src/pxmsg/mqnotifysig3.c:41-69 | each step is one step or none of the `sigwait` version under the abstraction that counts `mqflag` as a place for the wake-up |
| MqNotifyFlag.Refines | ipc/src/pxmsg/mqnotifysig3.c:41-69 | every run is a run of the `sigwait` version with the same messages sent |
| MqNotifyFlag.FSentIsSends | ipc/src/pxmsg/mqnotifysig3.c:41-69 | the record of what entered the queue is the messages of the send events in order |
| MqNotifyFlag.FSafety | ipc/src/pxmsg/mqnotifysig3.c:41-69 | exactly one of registered, pending, `mqflag`, about to register in every run; `mq_notify` never fails although its result is ignored; the messages received and then those queued are those the queue held and then those sent |
| MqNotifyFlag.FEveryRound | ipc/src/pxmsg/mqnotifysig3.c:46-61 | each round has one wake-up, one drain and one unblocking, and the program has returned if and only if it has registered and made `rounds` rounds |
| MqNotifyFlag.FNothingStranded | ipc/src/pxmsg/mqnotifysig3.c:48-53 | testing the flag with the signal blocked loses no wake-up |
| MqNotifyFlag.TestAndSuspend | ipc/src/pxmsg/mqnotifysig3.c:48-51 | a message that comes before the signal is blocked, before the test of the flag, or between the test and `sigsuspend` wakes the program all the same |
| MqNotifyFlag.FSleepsForEver | ipc/src/pxmsg/mqnotifysig3.c:44-51 | a program registered over queued messages never wakes |
| MqNotifyFlag.FStrandedExactly | ipc/src/pxmsg/mqnotifysig3.c:44-61 | no wake-up is lost if and only if the queue was empty at the first registration |
| MqNotifyFlag.FStepNearer | ipc/src/pxmsg/mqnotifysig3.c:47-61 | with messages queued, every step of the main program comes nearer to the next one or receives it, and no send or handler run sets it back |
| MqNotifyFlag.FDelivers | ipc/src/pxmsg/mqnotifysig3.c:47-61 | in every schedule of sends, handler runs and main steps the first k queued messages have been received in order once the main program has made k steps and at most seven more |
| MqNotifyFlag.FEventuallyReceived | ipc/src/pxmsg/mqnotifysig3.c:44-61 | from a first registration on an empty queue and before the last drain is over, all that was sent up to any point of any run is received in every continuation with enough main steps |
| MqNotifyFlag.FDrainsAlone | ipc/src/pxmsg/mqnotifysig3.c:47-61 | such schedules exist: the main program on its own never blocks before it has received all that was sent |
| HeapOrder.UpRestores | ds/timer-heap/timer_heap.cc:61-70 | sifting up restores heap order and permutes |
| HeapOrder.DownRestores | ds/timer-heap/timer_heap.cc:71-86 | sifting down restores heap order and permutes |
| HeapOrder.BrokenAtOnePlace | ds/timer-heap/timer_heap.cc:99-106 | swapping in the last timer breaks order at that index only, on the side the comparison with the parent tells |
| HeapOrder.RemovedKeepsHeap | ds/timer-heap/timer_heap.cc:92-109 | removal at any index keeps heap order and drops exactly that timer |
| HeapOrder.ExpiredSplits | ds/timer-heap/timer_heap.cc:46-54 | what is taken out is due and in deadline order, what stays is not due, together they are all |
| HeapOrder.ExpiredPending | ds/timer-heap/timer_heap.cc:46-54 | taking out the due timers splits the map from id to deadline by `now` |
| HeapOrder.TiesOutOfOrder | ds/timer-heap/timer_heap.cc:61-86 | four timers with one deadline stay in the order of addition in the heap and come out as the first, the third, the second and the fourth |
| TimerHeap.TimerHeap.SwapHeap | ds/timer-heap/timer_heap.cc:87-91 | two timers change places and every back-pointer is right |
| TimerHeap.TimerHeap.UpHeap | ds/timer-heap/timer_heap.cc:61-70 | the loop computes the specified sift and keeps all back-pointers |
| TimerHeap.TimerHeap.DownHeap | ds/timer-heap/timer_heap.cc:71-86 | the loop computes the specified sift and keeps all back-pointers |
| TimerHeap.TimerHeap.RemoveAt | ds/timer-heap/timer_heap.cc:95-107 | the heap becomes the specified removal and keeps all back-pointers |
| TimerHeap.TimerHeap.RemoveTimer | ds/timer-heap/timer_heap.cc:92-109 | the object stays valid and exactly the timer's id leaves the map |
| TimerHeap.TimerHeap.AddTimer | ds/timer-heap/timer_heap.cc:26-38 | the object stays valid, a new id enters the map, and the result tells whether the deadline is before all pending ones of a non-empty heap |
| TimerHeap.TimerHeap.CancelTimer | ds/timer-heap/timer_heap.cc:39-45 | an active id leaves the map and the handle is cleared; through a stale or copied handle nothing changes |
| TimerHeap.TimerHeap.GetExpiredTimers | ds/timer-heap/timer_heap.cc:46-54 | exactly the timers due are returned, the same objects, once each and in deadline order, and exactly the others stay |
| TimerHeap.EveryRun | ds/timer-heap/timer_heap.cc:24-109 | every run of the three operations, cancelling through any handle given out, does to the heap what it does to a map from id to deadline, and each call returns what the map says: whether an added timer is first, whether a handle is cleared, and the due timers in deadline order |
| Timestamp.Timestamp.AddTimespan | ds/timer-heap/timestamp.cc:14-22 | the exact sum is stored if it fits [0, 2^64), and 0 otherwise |
| Timestamp.DifferenceExactly | ds/timer-heap/timestamp.hpp:53-56 | the wrapping difference is the true one if and only if that fits 64 signed bits, and off by 2^64 otherwise |
| Timestamp.RoundTripExactly | ds/timer-heap/timestamp.cc:14-22 | adding b - a to a gives b if and only if b - a fits or b is 0 |
| Timestamp.DifferenceOrders | ds/timer-heap/timestamp.hpp:41-56 | within range the sign of a difference agrees with the ordering operators |
| Interpreter.Analyse | dp/interpreter/release/utils.cc:8-28 | for every string: undefined exactly for an empty string or a leading operator, and otherwise the left-associated tree of the string from the last start on, with the number of nodes allocated |
| Interpreter.StartFacts | dp/interpreter/release/utils.cc:8-28 | what is parsed is a chained suffix, and the whole string if and only if that is chained |
| Interpreter.FreedCounts | dp/interpreter/release/utils.cc:30-40 | `Release` frees a node as often as it occurs in the expression |
| Interpreter.OperandsFirst | dp/interpreter/release/utils.cc:30-40 | in any expression without shared nodes, by position in what is freed, the nodes of both operands of an operator come before it, so none is read after it is freed |
| Interpreter.TreeReleased | dp/interpreter/release/utils.cc:30-40 | the nodes of a parsed expression are freed in the order of their allocation |
| Interpreter.AnalyseAndRelease | dp/interpreter/release/main.cc:17-19 | the nodes from the last start on are freed, each once and in the order of allocation, operands before operators; and every node allocated is freed if and only if the string is chained |
| Interpreter.Variables.Interpret | dp/interpreter/release/var_expression.h:10-12 | the value reads missing variables as 0; exactly those of the expression enter the map, with 0, and all other entries stay |
| Interpreter.EvalDefaulted | dp/interpreter/release/add_expression.h:11-13 | what one operand inserts does not change the value of the other, so their order does not matter |
| Interpreter.TreeMeans | dp/interpreter/release/sub_expression.h:11-13 | the value of the tree is the sum over the variables that have a value of (times added minus times subtracted) times the value |
| Interpreter.OperandsOnce | dp/interpreter/release/utils.cc:8-28 | the list of variables of a string names each of them exactly once and no other |
| Interpreter.AnalyseAndInterpret | dp/interpreter/release/main.cc:11-18 | parsing and interpreting any string that `Analyse` accepts gives that sum over the distinct variables parsed, for any map, and enters the missing ones with 0 |

## Left out

- Threads are program counters in a value, stepped by a function; thread creation, joining, printing, command lines, system-call errors, EINTR and short writes are not modelled.
- Memory is sequentially consistent in the step systems; what weaker memory does is not modelled.
- LoserTree.LoserTree.MergeKLists: cyclic or shared lists are excluded; sizes are unbounded integers; what the read out of bounds does is not modelled.
- Interpreter.Variables.Interpret: `int` is unbounded, because signed overflow has no meaning in C++.
- TimerHeap.TimerHeap.AddTimer: excludes the 2^64-th id, after which ids repeat; callbacks and intervals are not modelled, because they do not touch the heap.
- TimerHeap.TimerHeap.CancelTimer: excludes handles made by hand with a foreign pointer; the lifetime of the weak pointer is not modelled, because an active timer is alive.
- `TimerObj::Restart` changes a key in place and is not modelled; `TimerHeap::GetNextExpire` is not modelled, because its emptiness test reads inverted.
- Message priorities, several receivers and signals from other sources are not part of `MqNotify.dfy`.
- Clock reads, `Timespan::ToTimespec` and `Timespan::ToTimeval` are I/O or incomplete.
- `ipc/src/pxshm/client2.c` and `server2.c`, `tcp-ip`, `dp/singleton`, the other design-pattern demos, the other producer-consumer programs and the notes are not modelled: finite, print-only or special cases of the above.
