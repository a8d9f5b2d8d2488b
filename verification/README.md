# A Dafny model of the train kernel

This Dafny project models a small real-time microkernel for the TS-7200 and the train control
programs that run on it, and proves what they keep over every run. `dafny verify dfyconfig.toml`
checks all of it. The `const`s, tables and branches are those of the source; where the source
changes state in place the model is a class or a method over arrays, proved against a function on
values, and the theorems are about that function. `assert` and `uassert` have the meaning they have
with PRODUCTION defined: they do nothing.

**Kernel.** `KernelState` is the kernel on values: 32 ready queues, a send queue per task, an event
table, descriptors. `KernelInvariant` proves that every turn keeps its invariant, `KernelHistory`
follows the protocol of each task through the log of what tasks can observe, and `KernelTheorems`
draws the whole-run properties. `KernelCalls` ties waits and log to the tasks' own calls,
`KernelResults` says what calls return, how long a task has it, and who runs next; `KernelEnds` is
about tasks that do not exist or never run again, `KernelGrants` about whom an interrupt wakes and
which turns let a byte out to UART1, and `KernelRuns` has short runs into corners.
`Kernel` is the kernel as written, with one intrusive link per task and a status word; `QueueLinks`
relates links to sequences and `Bits` the De Bruijn lookup to the least set bit.
`Kernel.Kernel.Serve` ends in the state of the abstract run for every trap sequence. `Handshake` is
the UART1 flow control, `Tasks` the packed ids and the stack arena.

**Routes.** `Track` defines walks by the edges they take, routes and their cost. `Heap` is the heap
template, `RouteSearch` says why uniform-cost search over an arena is right, `Planner` is planRoute.
`Ebook` compiles the route, `Turnouts` is the bitmap, `Walking` what the bitmap makes a train do,
`Driving` the go command that joins them, `Reversing` the way back. `TrackFile` is the part of the
track parser that makes the skew-symmetry true which `Reversing` assumes.

**Reservations.** `Reservation` is the track server, `StoppingWalk` the engineer's request to it.

**Servers.** `DelayedQueue`, `ClockServer`, `ClockDelays` and `ClockAnswers`, `Rings` with `UartIn` and `UartOut`,
`HandOff` with `SensorServer`: each a machine that handles one message at a time, with a history of
what was asked and answered. That a delayed, waiting or blocked task sends nothing until it is
answered, which these machines take from their environment, is what
`KernelTheorems.ProtocolNeverBroken` says of the kernel.

**Numbers.** `Numbers` prints and reads numbers.

Tracks are assumed to have at most 144 nodes, positive cycles, one branch per turnout number, a
positive index for each branch, and edges of at most 29826 mm, so that 72 of them measure less than
2^31 micrometres; each member names in its `requires` which of these it needs.

## Where code and documentation disagree

The model follows the code.

- Send and Reply document -2 for a task that does not exist. The lookup never fails for an index
  from 1 to 127: the sender is queued, a reply gets -3 (`KernelEnds.MissingTaskIsNotNoticed`). Nor is
  a send answered when the other task exits (`KernelEnds.NeverHeardOfAgain`).
- `TASK_STACK_LOW` counts bytes where the stacks are counted in words, so 32 tasks exhaust the arena
  and the too-many-tasks error cannot occur (`KernelTheorems.CreationOutcome`).
- A second task that awaits an event replaces the first, which is then in no queue
  (`KernelTheorems.LostExactlyByOverwriting`).
- `xmitRdy` starts as -1, so the first byte needs no transmit interrupt
  (`Handshake.FirstGrantIsFirstEdge`).
- The track server is announced as all-or-nothing; it keeps the granted prefix
  (`Reservation.FailureTakesNothingIff`). Its comment says that a release by another task is refused;
  it is carried out (`Reservation.ReleaseTakesFromOthers`).
- When 15 nodes do not cover the stopping distance, getReserveNodes returns -1, the request reserves
  nothing, and the answer is Success (`StoppingWalk.SuccessMeansSomethingIff`). This cannot happen on
  the two tracks of test/track_data.c, whose 14-edge walks measure at least 2205 mm, with stopping
  distances up to 1450 mm (`StoppingWalk.EveryStopIsCoverable`).
- A new maximum is linked in before the old tail of the delayed list, so delays can end late
  (`ClockDelays.RunNeverLateIff`).
- When planRoute declines because the destination is the opposite of the source, or the train is
  there already, the book of an earlier go is kept and executed again (`Driving.Engineer.Go`).
- The engineer never sets the train number that planRoute compares with the owners; the model
  takes it as a parameter.
- A delay that meets the end of the 32-bit tick can end after one notification
  (`ClockDelays.DelayLastsIff`).
- `_sa2i` refuses only digits greater than the base (`Numbers.StopsAtNumeralIff`).
- The result of pushing a string misses most overflows (`Rings.ReportIsRightIff`).

## Model

| member | source | states |
|---|---|---|
| `Bits.SetBit` | user/turnout.c:37-39 | setting bit i of a word turns exactly that bit on |
| `Bits.ClearBit` | user/turnout.c:41-44 | clearing bit i of a word turns exactly that bit off |
| `Bits.IsolateLeastBit` | include/kernel/scheduler.h:37-38 | xor of a nonzero word with (word and word minus one) is the power of two of its least set bit |
| `Bits.TableInvertsHash` | include/kernel/scheduler.h:27-38 | for each of the 32 bits the multiply-shift hash finds the table entry that names the bit |
| `Bits.LeastBitIndexIsLeast` | include/kernel/scheduler.h:37-41 | for every nonzero 32-bit word the lookup gives the index of the least set bit |
| `Tasks.IdFields` | include/kernel/task.h:77-95 | index and priority are read back from a packed id, which is a positive int |
| `Tasks.ArenaHoldsOnly32Stacks` | kernel/task.c:117-123 | the stack check passes for the n-th task exactly if n is at most 32, for every n |
| `Tasks.TakeIsPrefix` | kernel/message_passing.c:63-65 | what is copied is a prefix of the message, the whole of it or as much as there is room for |
| `Handshake.GrantsNeedBothSignals` | kernel/interrupts.c:180-249 | between two UART1 grants there are a clear-to-send edge and a transmit interrupt, for every interrupt sequence |
| `Handshake.FirstGrantNeedsEdge` | kernel/interrupts.c:153-204 | the first grant, too, needs a clear-to-send edge |
| `Handshake.FirstGrantIsFirstEdge` | kernel/interrupts.c:153-249 | up to and with the first edge, a grant comes exactly with that edge, whatever transmit interrupts came before |
| `Handshake.NextGrantIff` | kernel/interrupts.c:180-249 | after a grant the next one comes exactly with an edge that follows a transmit interrupt, or with a transmit interrupt while the last modem signal was an edge |
| `Handshake.FirstGrantWithoutTransmit` | kernel/interrupts.c:153-207 | the first grant needs no transmit interrupt: the flag starts as -1, which is true |
| `KernelInvariant.ScheduleInv` | include/kernel/scheduler.h:25-64 | taking the next task keeps the kernel invariant |
| `KernelInvariant.DeliverInv` | kernel/message_passing.c:59-83 | handing a message to a waiting receiver keeps the invariant |
| `KernelInvariant.BlockOnSendInv` | kernel/message_passing.c:86-110 | queueing a sender keeps the invariant |
| `KernelInvariant.TakeSenderInv` | kernel/message_passing.c:130-171 | taking the first sender keeps the invariant |
| `KernelInvariant.CompleteSendInv` | kernel/message_passing.c:226-250 | completing a send keeps the invariant |
| `KernelInvariant.AwaitInv` | kernel/interrupts.c:129-149 | waiting for an event keeps the invariant, also when a waiter is overwritten |
| `KernelInvariant.FireInv` | kernel/interrupts.c:164-173 | firing an event keeps the invariant |
| `KernelInvariant.ExitInv` | kernel/task.c:162-180 | leaving keeps the invariant |
| `KernelInvariant.RequestSettles` | kernel/kernel.c:41-127 | every system call leads from a running task back to a state in which each task is in one place |
| `KernelInvariant.StepInv` | kernel/kernel.c:140-156 | every turn of the main loop keeps the invariant: queues without repetition, statuses, ids, event slots and places agree |
| `KernelInvariant.BootInv` | kernel/kernel.c:20-31 | the invariant holds when the kernel starts |
| `KernelHistory.RunHistory` | kernel/message_passing.c:19-251 | over every run the log of sends, receives and replies follows the protocol, the send queues, and what the tasks have in their buffers and in r0, for every task |
| `KernelTheorems.OnePlaceEach` | kernel/kernel.c:41-127 | between turns every live task is in exactly one ready queue, send queue, Receive, wait for a reply or event slot, or was overwritten; its ready queue is that of its priority |
| `KernelTheorems.LostExactlyByOverwriting` | kernel/interrupts.c:147 | a waiter is lost exactly when another task awaits the same event |
| `KernelTheorems.ProtocolAssertionsHold` | kernel/message_passing.c:88 | the assertions of send and receive hold whenever they are reached, and a receive-blocked task has an empty send queue |
| `KernelTheorems.CreationOutcome` | kernel/task.c:108-123 | creation returns -1 for bad arguments, else -3 exactly once 32 tasks exist; -2 never |
| `KernelTheorems.DeliveryInSendOrder` | kernel/message_passing.c:57-171 | over every run each receiver gets the messages in the order their sends were handled, cut to its room, announced with their length |
| `KernelTheorems.ProtocolNeverBroken` | kernel/message_passing.c:208-250 | no send is received or completed twice or out of turn in any run |
| `KernelTheorems.RepliesPairWithSends` | kernel/message_passing.c:208-250 | every reply completes one send, comes from the task that received it, and is cut to the sender's room |
| `KernelTheorems.SendReturnsReplyLength` | kernel/message_passing.c:226-250 | until its next call the sender's return value is the length of the reply |
| `KernelTheorems.AlwaysHandsToTasks` | kernel/message_passing.c:183-191 | every message and every reply of a run went to a task of the table |
| `KernelTheorems.ReceiverIsHanded` | kernel/message_passing.c:59-159 | over every run, from a receipt until its next call the receiver has the message in its buffer, the sender's index, and the message's full length as its result |
| `KernelTheorems.SenderIsHanded` | kernel/message_passing.c:226-250 | the same of a reply: the sender has it in its buffer and its full length as its result |
| `KernelEnds.SendRefusedIff` | kernel/message_passing.c:29-49 | a send is answered at once exactly if the index is out of range, and then with -1; otherwise the sender waits in the queue or for its reply |
| `KernelEnds.MissingTaskIsNotNoticed` | kernel/message_passing.c:40-49 | to a task that was never created or has exited a sender is queued unanswered, and a reply is answered with -3; the documented -2 does not occur |
| `KernelEnds.ReplyReturns` | kernel/message_passing.c:183-241 | what Reply returns, by where the other task is: -1, -3, -5, -4 or 0 |
| `KernelEnds.SendToNobody` | kernel/message_passing.c:84-110 | the first task sends to task 2, never created, and is queued |
| `KernelEnds.StepKeeps` | kernel/kernel.c:140-156 | one turn of another task does nothing to a task that is ready, gone, or waits for a task that does not run: neither its place nor its descriptor changes |
| `KernelEnds.InterruptedIsNext` | kernel/kernel.c:43-48 | an interrupted task keeps its descriptor, and only a task of higher priority can run before it |
| `KernelEnds.NeverHeardOfAgain` | kernel/kernel.c:140-156 | over every run an exited or overwritten task stays so, and whoever waits to send to it or for its reply waits for ever |
| `KernelEnds.SendToExitedNeverEnds` | kernel/message_passing.c:84-110 | a send to an exited task never completes |
| `KernelGrants.FlagsFollowSignals` | kernel/interrupts.c:151-249 | the flags in every kernel run are those of the handshake on the signals seen |
| `KernelGrants.TurnGrantsIff` | kernel/interrupts.c:180-249 | a turn of any run lets a byte out exactly if it adds a signal that grants in the handshake of all signals so far |
| `KernelGrants.GrantTurnsAreSpaced` | kernel/interrupts.c:180-249 | in every kernel run, after a turn that lets a byte out and up to the next one, there are a turn with a clear-to-send edge and a turn with a transmit interrupt |
| `KernelGrants.WaiterWokenIff` | kernel/interrupts.c:151-307 | a task waiting for an event is woken exactly by an interrupt for that event and gets what belongs to it; one that waits to write to UART1, only by a turn that lets a byte out |
| `KernelRuns.WaiterIsLost` | kernel/interrupts.c:147 | a run of three turns after which a waiter is lost: two tasks await the same event |
| `KernelRuns.SenderIsStranded` | kernel/message_passing.c:84-110 | a run of three turns after which a task is queued at one that has exited |
| `KernelRuns.ArenaFills` | kernel/task.c:108-123 | 31 creations after the start all succeed, and only the next one meets a full arena |
| `KernelRuns.CreationRefused` | kernel/task.c:117-123 | a run of 32 creations whose last is answered with -3 |
| `KernelCalls.WaitsForItsCall` | kernel/message_passing.c:52-128 | over every run, whatever a task waits for, its last call asked for, and it waits with the message and the room given there |
| `KernelCalls.TurnLogs` | kernel/message_passing.c:19-251 | over every run a call adds to the log just what it and the last call of the other side say, and nothing else adds to it |
| `KernelResults.KeptUntilCall` | kernel/kernel.c:140-156 | over every run a ready task keeps its descriptor until it makes a call, and with it its results, its buffer and the argument it was spawned with |
| `KernelResults.CreateReturns` | kernel/kernel.c:66-81 | a created task is new and ready, with the priority asked for and the caller as parent, and the caller gets its index; a failed call gets the error and makes no task |
| `KernelResults.SpawnReturns` | kernel/kernel.c:82-103 | the same of Spawn, which also hands over the argument and returns -1 for every error |
| `KernelResults.OtherReturns` | kernel/kernel.c:104-123 | MyTid returns the caller's index, MyParentTid its parent's, Pass and an unknown call leave r0 alone |
| `KernelResults.ParentIsCreator` | kernel/task.c:125-137 | over every run a task's parent is the task whose call made it, and its stack is the one of its number |
| `KernelResults.StacksAreDisjoint` | kernel/task.c:117-137 | over every run no two tasks share a word of stack and none leaves the arena |
| `KernelResults.TurnQueues` | include/kernel/scheduler.h:25-108 | after a turn all ready tasks keep their order; those that a call makes ready are behind them, a sender before its replier and a new task before its creator; an interrupt takes no one from a queue |
| `QueueLinks.LookUpFindsTopPriority` | include/kernel/scheduler.h:32-44 | with bit i set exactly if queue i is nonempty, the table lookup names the first nonempty queue |
| `QueueLinks.QueueTaskLists` | include/kernel/scheduler.h:69-89 | appending by links is appending to the sequence; bitmap and other queues follow |
| `QueueLinks.AddToFrontLists` | include/kernel/scheduler.h:91-108 | prepending by links is prepending to the sequence |
| `QueueLinks.ScheduleLists` | include/kernel/scheduler.h:40-63 | unlinking the head is dropping the first of the sequence |
| `QueueLinks.BlockOnSendLists` | kernel/message_passing.c:91-106 | linking a sender in is appending it to the receiver's send queue |
| `QueueLinks.TakeSenderLists` | kernel/message_passing.c:130-147 | unlinking a sender is dropping the first of the send queue |
| `Kernel.Kernel.Boot` | kernel/kernel.c:20-31 | the linked queues start as the empty kernel with its first task |
| `Kernel.Kernel.Schedule` | include/kernel/scheduler.h:25-64 | returns the head of the first nonempty queue of the lowest number and removes just it, or nothing |
| `Kernel.Kernel.QueueTask` | include/kernel/scheduler.h:69-89 | appends the task to the queue of its priority |
| `Kernel.Kernel.AddToFront` | include/kernel/scheduler.h:91-108 | puts the task before all others of its priority |
| `Kernel.Kernel.HandleSend` | kernel/message_passing.c:19-111 | does exactly what sending does to the abstract state, with bad ids refused |
| `Kernel.Kernel.HandleReceive` | kernel/message_passing.c:113-172 | takes the first sender's message or blocks the receiver |
| `Kernel.Kernel.HandleReply` | kernel/message_passing.c:174-251 | completes the send, or refuses with the error of the first failing check |
| `Kernel.Kernel.AwaitInterrupt` | kernel/interrupts.c:129-149 | puts the caller into the slot of a valid event |
| `Kernel.Kernel.HandleInterrupt` | kernel/interrupts.c:151-314 | handles the first status bit set in the order tested; unknown only if none is |
| `Kernel.Kernel.HandleUart1` | kernel/interrupts.c:175-268 | modem before transmit before receive, with the handshake's flags |
| `Kernel.Kernel.HandleSignal` | kernel/interrupts.c:180-249 | computes the handshake's flags and grant |
| `Kernel.Kernel.TaskCreate` | kernel/task.c:108-142 | fills a new descriptor or returns the error |
| `Kernel.Kernel.TaskExit` | kernel/task.c:162-180 | clears the descriptor |
| `Kernel.Kernel.HandleCreate` | kernel/kernel.c:70-85 | queues the new task before its creator and returns its index |
| `Kernel.Kernel.HandleSpawn` | kernel/kernel.c:86-105 | as create, with the argument in the new task's r0, and -1 for every error |
| `Kernel.Kernel.HandleRequest` | kernel/kernel.c:41-127 | dispatches every call to its handler and requeues the caller where the source does |
| `Kernel.Kernel.Turn` | kernel/kernel.c:140-156 | one turn of the main loop is one step of the abstract kernel |
| `Kernel.Kernel.Serve` | kernel/kernel.c:140-156 | for every trap sequence the linked kernel ends in the state of the abstract run, so all run theorems hold of it |
| `Heap.PQHeap.SiftUp` | include/heap.h:16-24 | restores the order above one position and keeps the contents |
| `Heap.PQHeap.SiftDown` | include/heap.h:26-41 | the sift that may go into child 2i and then child 2i+1 restores the order of the subtree, ends, and touches nothing else |
| `Heap.PQHeap.Push` | include/heap.h:43-47 | adds exactly one entry to the multiset |
| `Heap.PQHeap.Pop` | include/heap.h:49-55 | removes exactly one entry, a smallest one |
| `Heap.LeastComesFirst` | include/heap.h:49-51 | in an ordered heap the first entry is a least one |
| `Track.CutCycle` | user/pathfinding.c:78-85 | cutting a cycle out of a route gives a route that is shorter by the cycle |
| `Track.ShortestIsSimple` | user/pathfinding.c:205-223 | with positive cycles a shortest route repeats no node, so it has fewer edges than the track has nodes |
| `RouteSearch.ReplaceByChildren` | user/pathfinding.c:150-198 | a popped node may be replaced by its children: every route still starts with a frontier walk, no frontier cost falls below the popped one |
| `RouteSearch.DropClosed` | user/pathfinding.c:117-140 | exits and nodes of other trains may be dropped without losing a route |
| `RouteSearch.PoppedGoalIsShortest` | user/pathfinding.c:112-115 | the first destination node popped ends a shortest route |
| `RouteSearch.EmptyFrontier` | user/pathfinding.c:97-105 | an empty frontier means that no route exists |
| `RouteSearch.PopLedger` | user/pathfinding.c:97-112 | no walk is explored twice: a popped node has no children yet, and is no dearer than any route |
| `RouteSearch.ManyClosed` | user/pathfinding.c:86-199 | with 4096 popped nodes there are as many different open walks no dearer than any route |
| `RouteSearch.CostsFit` | user/pathfinding.c:158-181 | no cost in the arena overflows an int |
| `Planner.Planner.Search` | user/pathfinding.c:86-199 | popped costs never decrease; the result is shortest; no route only if there is none; out of room only if 4096 open walks are no dearer than every route |
| `Planner.Planner.ReadBack` | user/pathfinding.c:205-214 | following the parents ends at the start and writes the route backwards within the buffer |
| `Planner.Planner.TurnRound` | user/pathfinding.c:219-223 | the two-index loop reverses the buffer in place |
| `Planner.Planner.PlanRoute` | user/pathfinding.c:59-228 | a route found is a cheapest walk from src to dst over open nodes, without repetition, and the buffer holds its nodes in order; one is found if there is any and fewer than 4096 open walks are as cheap |
| `Turnouts.AddressesDiffer` | user/turnout.c:19-29 | two turnouts never share a bit |
| `Turnouts.SetTurnoutSetsOnlyIt` | user/turnout.c:31-45 | setting one turnout sets it and no other |
| `Turnouts.Turnouts.SetTurnout` | user/turnout.c:90-109 | the bitmap changes as setting says and stays a word |
| `Turnouts.Turnouts.InitTurnouts` | user/turnout.c:126-137 | at the start exactly turnouts 11 and 153 are curved |
| `Walking.DistanceBetween` | user/pathfinding.c:443-463 | micrometres to the first visit within 72 edges, -1 exactly if there is none |
| `Walking.AlignedWalkIsFollowed` | user/pathfinding.c:419-432 | with the turnouts aligned a train drives exactly the given walk |
| `Walking.AlignedWalkIsFirst` | user/pathfinding.c:419-463 | and meets its end for the first time after all its edges, if it repeats no node |
| `Reversing.BackEdge` | user/pathfinding.c:419-432 | one edge on and, with the turnout aligned, one edge back between the opposite nodes |
| `Reversing.DistanceBackIsDistanceThere` | user/pathfinding.c:445-463 | with turnouts aligned, b.reverse to a.reverse takes the same first visit and length as a to b |
| `Reversing.MeasureBothWays` | user/pathfinding.c:445-463 | distanceBetween called both ways returns the same length |
| `Reversing.ReverseTwice` | user/engineer.c:945-955 | reversing twice restores prevNode, prevSensor and nextSensor exactly if the turnout met backwards is aligned |
| `Reversing.ReverseFaces` | user/engineer.c:945-955 | after a reverse the sensor passed last lies ahead, one edge farther than the train had come past it, and the sensor that was to come lies behind; the heading changes |
| `Ebook.Ebook.MakeEbook` | user/pathfinding.c:314-379 | the instructions' nodes and operations concatenate to the path and its operations; a new instruction begins exactly at each interior reversal; targets chain to the path's end; short paths are refused |
| `Driving.OperationOfStep` | user/pathfinding.c:289-297 | a branch's operation decodes to that branch and the direction the path takes; others have none |
| `Driving.OperationsAlign` | user/engineer.c:293-304 | executing a path's operations in order aligns all its branches; none undoes another |
| `Driving.ExecutedRouteIsAligned` | user/engineer.c:286-304 | afterwards every branch of the route stands the way the route goes |
| `Driving.Engineer.SetTargetFromEnstruction` | user/engineer.c:286-314 | applies the operations in order and sets the target |
| `Driving.Engineer.Compile` | user/engineer.c:1037 | a planned route becomes one instruction with all its nodes, operations and its end as target |
| `Driving.Engineer.Go` | user/engineer.c:1013-1067 | plan, compile, execute: the walk under the new turnouts is the planned shortest route and first reaches dst at its end; otherwise the book is emptied, or left and executed again |
| `Driving.Engineer.GoAndMeasure` | user/engineer.c:1013-1067 | distanceBetween afterwards is 1000 times the route's cost up to 72 edges, else -1 |
| `Reservation.LongestPrefixIsLongest` | user/trackserver.c:66-88 | a prefix of a request can be reserved exactly if it is no longer than the one granted |
| `Reservation.PrefixGrows` | user/trackserver.c:16-23 | isReservable after a reserved prefix means that the longer prefix has no conflict with the track or with itself |
| `Reservation.TrackServer.Release` | user/trackserver.c:52-61 | frees exactly the named nodes, whoever owns them |
| `Reservation.TrackServer.Reserve` | user/trackserver.c:66-88 | gives exactly the longest reservable prefix to the caller and names the cause of a failure |
| `Reservation.TrackServer.Serve` | user/trackserver.c:39-91 | one message: release everything named, then reserve |
| `Reservation.RequestKeepsExclusive` | user/trackserver.c:16-23 | a message never leaves a node and its reverse owned at the same time |
| `Reservation.OwnerAfter` | user/trackserver.c:52-88 | the owner of every node after a message; reserving never takes another task's node, and such a node stays exactly if it is not released |
| `Reservation.SuccessOwnsAll` | user/trackserver.c:63-90 | Success means that the caller owns all it asked for, with every reverse free |
| `Reservation.FailureNamesCause` | user/trackserver.c:71-82 | SameDir: another task owns the refused node; OppositeDir: its reverse is owned |
| `Reservation.OwnNodesAreGranted` | user/trackserver.c:16-23 | nodes that the caller owns are granted again and stay as they are |
| `Reservation.FailureTakesNothingIff` | user/trackserver.c:71-88 | a failed request takes nothing exactly if the first node asked for that is not the caller's, once the released ones are free, cannot be reserved |
| `Reservation.AllOrNothingFails` | include/user/trackserver.h:9 | a failed request that keeps a node: the announced all-or-nothing handling is not there |
| `Reservation.ReleaseTakesFromOthers` | user/trackserver.c:49-60 | a request that frees another task's node, against the comment |
| `Reservation.AlwaysExclusive` | user/trackserver.c:32-91 | over every run no node and its reverse are owned at the same time |
| `Reservation.OwnerIsLastGrant` | user/trackserver.c:32-91 | over every run a task owns a node exactly if it was granted it and no later message released it |
| `Reservation.GrantedNodesAreAvoided` | user/pathfinding.c:133-138 | no route of another train leaves a node that was granted |
| `Reservation.RouteIffWalk` | user/pathfinding.c:133-138 | where no other train owns a node every walk is a route |
| `StoppingWalk.GetReserveNodes` | user/engineer.c:346-373 | the nodes of the shortest walk covering the distance in whole millimetres or up to an exit; -1 exactly if 15 nodes are too few |
| `StoppingWalk.QuotientTruncates` | user/engineer.c:353 | the distance in whole millimetres is rounded toward zero |
| `StoppingWalk.ReserveAhead` | user/engineer.c:651-665 | look ahead, then one track server message with those nodes |
| `StoppingWalk.EveryStopIsCoverable` | user/engineer.c:229-238 | on a track where 14 edges measure at least 1450 mm, 15 nodes are enough for every stopping distance of both trains |
| `StoppingWalk.SuccessProtectsStop` | user/engineer.c:346-373 | on such a track Success means that the caller owns every node until it can stop, reverses free |
| `StoppingWalk.SuccessProtectsCovered` | user/engineer.c:346-373 | the same on any track, of a request whose list could be filled |
| `StoppingWalk.SuccessMeansSomethingIff` | user/engineer.c:371-372 | on any track and with any list of nodes to release, Success says something about the node ahead exactly if 15 nodes are enough |
| `StoppingWalk.SuccessOwnsNothing` | user/engineer.c:371-372 | a track with edges too short for 15 nodes: Success, and nothing is owned |
| `DelayedQueue.InsertAddsOne` | user/clockserver.c:90-125 | inserting adds exactly the new entry |
| `DelayedQueue.InsertKeepsSortedIff` | user/clockserver.c:105-124 | a sorted list stays sorted exactly if the newcomer is no new maximum or all deadlines are equal |
| `DelayedQueue.LinkBefore` | user/clockserver.c:107-113 | linking before the first later task gives one circle with the same tail and the inserted sequence |
| `DelayedQueue.LinkAsTail` | user/clockserver.c:115-122 | linking a new maximum before the old tail gives one circle, read from the old tail |
| `DelayedQueue.Unlink` | user/clockserver.c:131-137 | moving the head past expired tasks leaves one circle of the others |
| `DelayedQueue.Queue.InsertDelayedTask` | user/clockserver.c:90-125 | for a task not in the list the scan ends and the list is the inserted sequence |
| `DelayedQueue.Queue.RemoveExpiredTasks` | user/clockserver.c:127-148 | answers exactly the expired front of the list, in order, and keeps the rest |
| `ClockServer.Server.Serve` | user/clockserver.c:182-206 | one message is one step, with its replies |
| `ClockServer.StepConserves` | user/clockserver.c:182-206 | each message moves delays from asked to pending to answered, losing and repeating none |
| `ClockServer.EachAnsweredOnce` | user/clockserver.c:182-206 | over every run each delay asked for was answered exactly once or is pending |
| `ClockAnswers.NotificationWakes` | user/clockserver.c:127-190 | a notification is answered once, and then once to each task whose delay left the list, in order, all of them due |
| `ClockAnswers.EachCallerIsWoken` | user/clockserver.c:182-206 | over every run the empty replies and the pending delays together are the notifications and delays sent, task by task |
| `ClockAnswers.TimeIsAnswered` | user/clockserver.c:191-193 | Time is answered at once with the number of notifications so far as a word |
| `ClockServer.NeverEarly` | user/clockserver.c:127-139 | no delay is answered before its deadline, as 32-bit words |
| `ClockDelays.DelayLasts` | user/clockserver.c:195-197 | over every run a Delay ends after at least as many notifications as asked for, if it is clear of the wrap of the tick |
| `ClockDelays.DelayLastsIff` | user/clockserver.c:195-197 | whatever else is pending, a Delay lasts the notifications asked for exactly if it is for one tick at most, is over before the tick wraps, or starts at the last tick |
| `ClockDelays.DelayEndsEarly` | user/clockserver.c:195-197 | Delay(10) at five ticks before the wrap ends after one notification |
| `ClockServer.TickCounts` | user/clockserver.c:187-190 | the tick is the number of notifications modulo 2^32 |
| `ClockServer.AlwaysOnePerTask` | user/clockserver.c:90-125 | in every run a task has at most one pending delay |
| `ClockServer.AnsweredIff` | user/clockserver.c:127-148 | a notification ends the delay at position p exactly if all up to p are due |
| `ClockServer.EmptiedWhenAllDue` | user/clockserver.c:141-145 | once the tick reaches every deadline the list is empty |
| `ClockServer.PromptIff` | user/clockserver.c:127-148 | nothing due stays behind exactly if no due delay stood behind one that is not |
| `ClockDelays.NeverLateIff` | user/clockserver.c:90-148 | no delay is late at any later notification exactly if none stands behind a later one that the next tick does not end |
| `ClockDelays.NeverLateIffSorted` | user/clockserver.c:90-148 | while all deadlines lie ahead: exactly if the list is sorted |
| `ClockDelays.RequestMakesLateIff` | user/clockserver.c:115-121 | in any state where none is, a request makes some delay late exactly if it is a new maximum, the deadlines so far differ, and the last of them does not end at the next tick |
| `ClockDelays.RunNeverLateIff` | user/clockserver.c:182-206 | over every run no delay is ever bound to be late exactly if no request was of that kind when it came |
| `ClockDelays.TimelyRunIsPrompt` | user/clockserver.c:182-206 | in every run without such a request no notification leaves a delay that is due |
| `ClockServer.DelayEndsLate` | user/clockserver.c:115-121 | delays until 10, 20, 30: the first is still pending at every tick from 10 to 19 |
| `Rings.PushedAllIsSuffix` | kernel/utils.c:70-84 | whatever is pushed, the ring holds the last 1 + (n-1) mod capacity of the n values |
| `Rings.NothingLostIff` | kernel/utils.c:70-130 | nothing is lost exactly if all values fit at once |
| `Rings.OneTooMany` | kernel/utils.c:70-84 | an empty ring keeps exactly what fits; of one value more only the last |
| `Rings.ReportsIff` | kernel/utils.c:109-130 | an overflow is reported exactly if the n values given to the ring exceed it and n - 1 is a multiple of the capacity |
| `Rings.ReportIsRightIff` | kernel/utils.c:109-130 | the report is right exactly if n fits or n - 1 is a multiple of the capacity |
| `Rings.OverflowGoesUnreported` | kernel/utils.c:109-119 | capacity + 2 values into an empty ring: all but two are lost and no overflow is reported |
| `Rings.PushOnCells` | kernel/utils.c:70-84 | on the cells: append, or start again with the one value when full |
| `Rings.PopOnCells` | kernel/utils.c:86-98 | on the cells: drop the first |
| `Rings.Ring.Push` | kernel/utils.c:70-84 | append, or keep only the new value and report -1 |
| `Rings.Ring.Pop` | kernel/utils.c:86-98 | the oldest value, or none |
| `Rings.Ring.PushAll` | kernel/utils.c:109-130 | pushes all; the result is -1 exactly by the lengths, as ReportsIff says |
| `UartIn.Server.Serve` | user/io.c:144-197 | one message to a receiving server is one step, with its replies |
| `UartIn.StepKeepsOrderly` | user/io.c:150-187 | characters and waiting tasks are never both queued, and the task ring never overflows |
| `UartIn.NothingLostIff` | user/io.c:163-186 | bytes served and bytes in the ring are the bytes received, exactly if no byte met a full ring |
| `UartIn.KthGetcGetsKthByte` | user/io.c:334-397 | the k-th Getc gets the k-th byte received |
| `UartIn.NotifierAndCourier` | user/io.c:150-161 | a notification is acknowledged once, to its sender, and a waiting courier gets just the word that came |
| `UartIn.EveryoneIsAnswered` | user/io.c:144-197 | over every run each notification is acknowledged once, in order, and each courier that asked for an echo, but the waiting one, got one word, in turn |
| `UartIn.UnreadBytes` | user/io.c:163-186 | unread bytes are kept up to 2047 from the monitor or 511 from the train; of one more only that one is left |
| `UartOut.Server.Serve` | user/io.c:235-319 | one message to a sending server is one step, with its writes and replies in order |
| `UartOut.StepKeepsOrderly` | user/io.c:238-314 | a waiting notifier means an empty ring; one write and one answer per notification, to its own address |
| `UartOut.StringEndsAtNul` | kernel/utils.c:109-119 | the string sent is what stands before the first zero |
| `UartOut.CallerIsAnswered` | user/io.c:235-319 | the caller of a character or string gets its one answer at once, and no one else does but the notifier |
| `UartOut.AnswerOrder` | user/io.c:413-541 | a write is made before the notifier is answered; the monitor answers the caller of a character last, all others are answered first |
| `UartOut.EveryCallerIsAnswered` | user/io.c:235-319 | over every run each task but the notifier has as many answers as it sent requests |
| `UartOut.NothingLostIff` | user/io.c:241-314 | characters written and in the ring are those asked for, in order, exactly if every request fitted |
| `UartOut.KthWriteAnswersKthNotification` | user/io.c:413-541 | the k-th character written is the k-th asked for, written for the k-th notification |
| `UartOut.OneString` | user/io.c:241-314 | while the UART is busy a string waits whole up to 2047 characters for the monitor or 511 for the train; of one character more only the last waits |
| `HandOff.Desk.Offer` | user/engineer.c:316-339 | a blocked worker is given the work, else it is queued |
| `HandOff.Desk.Ask` | user/engineer.c:918-935 | the worker is given the oldest work, else it is blocked |
| `HandOff.AlwaysIdle` | user/engineer.c:918-935 | a blocked worker means an empty queue, in every run |
| `HandOff.AlwaysOrderly` | user/engineer.c:316-339 | every worker that asked, but the blocked one, was given one thing, in turn |
| `HandOff.NothingLostIff` | user/engineer.c:316-339 | work is handed over in order without loss or repetition exactly if none met a full ring |
| `HandOff.KthWorkerGetsKthWork` | user/engineer.c:918-935 | the k-th request is given the k-th piece of work |
| `SensorServer.ChosenClaims` | user/sensor.c:425-462 | a hit is attributed exactly if its sensor is claimed, to a primary claim before any secondary one |
| `SensorServer.EarlierWinsIff` | user/sensor.c:441-449 | of two primary claims the earlier wins, exactly unless the first alone has no hit yet |
| `SensorServer.EarlierSecondaryWinsIff` | user/sensor.c:451-459 | the same of two secondary claims where no primary one is |
| `SensorServer.PrimaryWins` | user/sensor.c:441-462 | a primary claim wins over a secondary one whatever the times |
| `SensorServer.SensorNumbers` | user/sensor.c:412-423 | sensors are numbered in the order their bits come: byte by byte, from the highest bit down |
| `SensorServer.SensorHasOneBit` | user/sensor.c:412-423 | no two bits share a sensor, and every sensor has its bit |
| `SensorServer.HitIsRemembered` | user/sensor.c:462-500 | a hit goes to the engineer chosen, whose entry alone remembers its time |
| `SensorServer.ClaimTakesEffect` | user/sensor.c:329-358 | from a claim on, hits of the sensor claimed first go to an engineer that claims it first; other entries keep their claims |
| `SensorServer.InitialClaimTakesEffect` | user/sensor.c:382-535 | the first claim of an engineer adds it, with that claim, to those that are asked |
| `SensorServer.EveryClaimedHitIsDelivered` | user/sensor.c:410-501 | one byte delivers one message per set bit with a claimed sensor, in order, to an engineer that claims it |
| `SensorServer.Server.Attribute` | user/sensor.c:425-462 | the loop over the attributions computes that choice |
| `SensorServer.Server.HandleByte` | user/sensor.c:408-507 | the loop over the bits makes those deliveries, to the blocked courier or into the queue |
| `SensorServer.Server.SetAttribution` | user/sensor.c:329-358 | changes the claims of the first engineer with that courier, or nothing |
| `SensorServer.Server.Serve` | user/sensor.c:382-535 | one message is one step, with its replies |
| `SensorServer.NoCourierIsBlocked` | user/sensor.c:399-404 | whenever a delivery is taken from the queue no courier is blocked: the assertion cannot fail |
| `SensorServer.DeliveriesInOrder` | user/sensor.c:390-494 | deliveries are handed over in creation order without loss exactly if none met a full ring |
| `SensorServer.EveryoneIsAnswered` | user/sensor.c:382-535 | over every run the replies with deliveries are what the desk hands over, each to the courier whose turn it is, and every other caller is answered once, in order |
| `Numbers.ValueOfDigits` | kernel/utils.c:319-335 | the digits without leading zeros denote the number |
| `Numbers.PaddedFromTop` | kernel/utils.c:325-328 | the first digit is the quotient by the greatest power, the others are those of the remainder |
| `Numbers.Divisor` | kernel/utils.c:320-324 | the divisor is the greatest power not above the number and stays below 2^32 |
| `Numbers.Sui2a` | kernel/utils.c:319-335 | writes the canonical digits and a zero from the given cell on and nothing else, for bases 2 to 16 |
| `Numbers.DigitsAreThese` | kernel/utils.c:289-294 | digits are written as 0-9 and a-f, and read as these and A-F |
| `Numbers.TenDigitsAreEnough` | kernel/utils.c:319-335 | every 32-bit number has at most ten digits in bases 10 to 16 |
| `Numbers.Si2a` | kernel/utils.c:337-343 | writes sign and digits for every int, -2^31 included, within twelve cells |
| `Numbers.Sa2i` | kernel/utils.c:296-308 | reads the value of the accepted characters modulo 2^32 and stops right after the first other one |
| `Numbers.ReadingUndoesPrinting` | kernel/utils.c:289-335 | reading a printed number and the next character gives it back exactly if it fits an int and the character is one to stop at |
| `Numbers.DigitEqualToBaseIsRead` | kernel/utils.c:302 | in base ten "1a" is read as twenty |
| `Numbers.StopsAtNumeralIff` | kernel/utils.c:301-305 | reading stops at the end of the longest numeral exactly if the character there is not a digit that equals the base |
| `Numbers.HexadecimalIsReadRight` | kernel/utils.c:301-305 | in base 16 it always does |
| `TrackFile.ResolveNames` | track/parse_track.py:100-108 | no error exactly if every node has the properties of its type and every name is known |
| `TrackFile.AddEdge` | track/parse_track.py:224-238 | no error exactly if one direction leads to the node and has no record yet; then just that one gets it |
| `TrackFile.AddEdges` | track/parse_track.py:109-121 | without errors and with reverse an involution, the records in the nodes are one pair of opposite directed edges per edge |
| `TrackFile.CheckEdges` | track/parse_track.py:122-129 | no error exactly if every direction that leads somewhere has a record |
| `TrackFile.Build` | track/parse_track.py:54-129 | no error and an involution give a sound track |
| `TrackFile.EveryEdgeHasOnePartner` | track/parse_track.py:110-121 | every edge u to v has exactly one partner v.reverse to u.reverse with the same edge record |
| `TrackFile.GeneratedTrackIsSkew` | track/parse_track.py:357-386 | the generated track is skew-symmetric with equal distances, as the theorems about turning round assume |
| `TrackFile.GeneratedNodeIsNamed` | track/parse_track.py:357-386 | a generated node has the kind and number of its entry, the reverse that it names, and one edge for each direction of its kind |
| `TrackFile.GeneratedEdgeIsNamed` | track/parse_track.py:357-386 | each of its edges leads to the node named for that direction |
| `TrackFile.GeneratedEdgeIsMeasured` | track/parse_track.py:109-121 | each generated edge is as long as the edge record says that names its two nodes, or their opposites in the other order |
| `TrackFile.RecordIsGenerated` | track/parse_track.py:109-121 | every edge record of the file has its edge, from the first node that it names to the second |

## Left out

- Hardware: context switch, VIC, UART and timer registers, caches, bwio. Interrupts are inputs with their status bits, writes to a UART are outputs.
- Terminal drawing, parser, clock drawer, idle statistics, task names and cpu times: display only.
- Name server, legacy model loader and the literal track tables: data or easy lookups.
- Train kinematics, velocity and calibration arithmetic.
- Memory: a message is a sequence of bytes, and copying one takes its first min(length, room) bytes.
- The link field of a descriptor is kept in a column of its own beside the descriptors.
- Trap frames: the saved r0 of a task is a field, the rest of its registers is not modelled.
- PathBuffer and tree pointers are indices; a frontier entry carries its arena record beside the index, since no slot is changed while it is in use.
- `Planner.Planner.Search`: where the source would pop from an empty heap, or write past the arena or the heap, the model stops with NoRoute or OutOfRoom.
- Reverse moves in planRoute and expandPath: commented out in the source. makeEbook does handle reverse marks.
- `Ebook.Ebook.MakeEbook`: the instructions are a sequence of values, so unused array cells are not modelled, and at most 14 instructions are assumed.
- getNextSensor and getNextClaims, and with them the sensor courier's claims.
- getReleaseNodes and getPrevOwnedNode: the released nodes of a request are an arbitrary list.
- Concurrency between engineer and track server: the engineer reads only the parts of the track that never change.
- `Reservation.TrackServer.Serve`: the assertion that the counts are not negative is no check; a negative count reserves nothing.
- Whether a loaded track is roomy or skew-symmetric is not computed from the literal tables.
- `StoppingWalk.GetReserveNodes`: distances are unbounded integers here; 14 edges stay far below 2^31 mm.
- `Reversing.ReverseTwice`: the claims that are recomputed on a reverse are left out with getNextClaims.
- The delayed tasks' own tid field, which is always the index.
- `ClockServer.NeverEarly`: compares 32-bit words; how many notifications a delay lasts is `ClockDelays.DelayLasts` and `ClockDelays.DelayLastsIff`.
- `ClockServer.Server.Serve`: an invalid request type, on which the server stops for good, is not a request of the model.
- `UartIn.Server.Serve`, `UartOut.Server.Serve`: requests of unknown type, ignored by the source, are not requests of the model.
- The serving class of the monitor and of the train is one, with the ring size and the echo or raw-string case as parameters.
- CBuffer, CommandQueue and SensorQueue are one class; its Pop says None where CBufferPop returns -1, which as a char cannot be told from byte 255.
- `HandOff.Desk.Offer`: the engineer's message about a full command ring is display; the command is pushed all the same.
- The engineer's speed and state machine around its commands.
- `SensorServer.Server.Serve`: a third engineer would be written past the table; the source asserts that there is none, and so does the precondition.
- Attribution by least prevTime: not what the loop does; `SensorServer.EarlierWinsIff` says when it is, for the two engineers there can be.
- `Numbers.Sui2a`: the caller's duty to pass a long enough buffer is a precondition on the number of digits.
- sformat, padding and the other string helpers.
- In `TrackFile`, the reading of lines and properties; it starts from parsed nodes and edges.
- `TrackFile.Build`: that reverse is an involution is not checked by the parser and is assumed where it is needed.
