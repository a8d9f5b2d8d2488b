/** The properties of whole kernel runs, for every sequence of traps. */
module KernelTheorems {
  import opened Common
  import opened Tasks
  import Handshake
  import opened KernelState
  import opened KernelInvariant
  import opened KernelHistory

  // ----- every task is in exactly one place -----

  predicate InSomeSendQueue(s: State, t: nat)
    requires Shape(s)
  {
    exists r :: 0 <= r < MAX_TASKS && t in s.sending[r]
  }

  predicate InSomeReadyQueue(s: State, t: nat)
    requires Shape(s)
  {
    exists p :: 0 <= p < MAX_PRIORITY && t in s.ready[p]
  }

  predicate AwaitsSomeEvent(s: State, t: nat)
    requires Shape(s)
  {
    exists e :: 0 <= e < NUM_EVENTS && s.events[e] == t
  }

  function Count(b: bool): nat {
    if b then 1 else 0
  }

  /** Between two turns, a task that was created and has not exited is in exactly one of: a
      ready queue, a send queue, a Receive, a wait for its reply, an event slot; or it was
      thrown out of its event slot. Its queue is the one of its own priority. */
  lemma OnePlaceEach(empty: State, traps: seq<Trap>, t: nat)
    requires IsEmpty(empty) && IsTid(t) && !Run(empty, traps).halted && Alive(Run(empty, traps).place[t])
    ensures var s := Run(empty, traps);
      Count(InSomeReadyQueue(s, t)) + Count(InSomeSendQueue(s, t)) + Count(s.tasks[t].status == ReceiveBlock)
      + Count(s.tasks[t].status == ReplyBlock) + Count(AwaitsSomeEvent(s, t)) + Count(s.place[t] == Lost) == 1
    ensures var s := Run(empty, traps);
      forall p :: 0 <= p < MAX_PRIORITY && t in s.ready[p] ==> p == Prio(s, t)
  {
    var s := Run(empty, traps);
    PlaceIsVisible(s, t);
  }

  lemma PlaceIsVisible(s: State, t: nat)
    requires Inv(s) && IsTid(t)
    ensures InSomeReadyQueue(s, t) <==> s.place[t] == InReady
    ensures InSomeSendQueue(s, t) <==> s.place[t].InSend?
    ensures AwaitsSomeEvent(s, t) <==> s.place[t].Awaiting?
    ensures s.tasks[t].status == ReceiveBlock <==> s.place[t] == Receiving
    ensures s.tasks[t].status == ReplyBlock <==> s.place[t].Replying?
    ensures forall p :: 0 <= p < MAX_PRIORITY && t in s.ready[p] ==> p == Prio(s, t)
  {
    if s.place[t] == InReady { assert t in s.ready[Prio(s, t)]; }
    if s.place[t].InSend? { assert t in s.sending[s.place[t].to]; }
    if s.place[t].Awaiting? { assert s.events[s.place[t].event] == t; }
  }

  ghost predicate Overwrites(s: State, request: Request, t: nat)
    requires Shape(s)
  {
    request.AwaitEvent? && request.event < NUM_EVENTS && s.events[request.event] == t
  }

  lemma SendLosesNoTask(s: State, t: nat, to: int, msg: Message, cap: nat, u: nat)
    requires Linked(s) && IsTid(t) && IsTid(u) && s.place[u] != Lost
    ensures HandleSend(s, t, to, msg, cap).place[u] != Lost
  {
  }

  lemma ReceiveLosesNoTask(s: State, t: nat, room: nat, u: nat)
    requires Linked(s) && IsTid(t) && IsTid(u) && s.place[u] != Lost
    ensures HandleReceive(s, t, room).place[u] != Lost
  {
  }

  lemma ReplyLosesNoTask(s: State, t: nat, to: int, reply: Message, u: nat)
    requires Linked(s) && IsTid(t) && IsTid(u) && s.place[u] != Lost
    ensures HandleReply(s, t, to, reply).place[u] != Lost
  {
    hide PriorityOf, Min, Take;
  }

  lemma CreateLosesNoTask(s: State, t: nat, priority: int, hasCode: bool, u: nat)
    requires Linked(s) && IsTid(t) && IsTid(u) && s.place[u] != Lost
    ensures HandleCreate(s, t, priority, hasCode).place[u] != Lost
  {
  }

  lemma SpawnLosesNoTask(s: State, t: nat, priority: int, hasCode: bool, argument: int, u: nat)
    requires Linked(s) && IsTid(t) && IsTid(u) && s.place[u] != Lost
    ensures HandleSpawn(s, t, priority, hasCode, argument).place[u] != Lost
  {
  }

  lemma AwaitLosesOnlyTheWaiter(s: State, t: nat, event: nat, u: nat)
    requires Linked(s) && IsTid(t) && IsTid(u) && s.place[t] == InHand && s.place[u] != Lost
    requires event < NUM_EVENTS && s.events[event] != t
    ensures Await(s, t, event).place[u] == Lost <==> s.events[event] == u
  {
  }

  lemma AnswerLosesNoTask(s: State, t: nat, ret: int, u: nat)
    requires Linked(s) && IsTid(t) && IsTid(u) && s.place[u] != Lost
    ensures Answer(s, t, ret).place[u] != Lost
  {
  }

  lemma LostByRequest(s: State, t: nat, request: Request, u: nat)
    requires Holding(s, t) && IsTid(u) && s.place[u] != Lost
    ensures Linked(s) && Shape(HandleRequest(s, t, request))
    ensures HandleRequest(s, t, request).place[u] == Lost <==> Overwrites(s, request, u)
  {
    RequestSettles(s, t, request);
    NotWaiting(s, t);
    hide Inv, HandleSend, HandleReceive, HandleReply, HandleCreate, HandleSpawn, Await, Answer;
    match request
    case AwaitEvent(event) =>
      if event < NUM_EVENTS { AwaitLosesOnlyTheWaiter(s, t, event, u); } else { AnswerLosesNoTask(s, t, -1, u); }
    case Send(to, msg, cap) => SendLosesNoTask(s, t, to, msg, cap, u);
    case Receive(room) => ReceiveLosesNoTask(s, t, room, u);
    case Reply(to, msg) => ReplyLosesNoTask(s, t, to, msg, u);
    case Create(priority, hasCode) => CreateLosesNoTask(s, t, priority, hasCode, u);
    case Spawn(priority, hasCode, argument) => SpawnLosesNoTask(s, t, priority, hasCode, argument, u);
    case MyTid => AnswerLosesNoTask(s, t, IndexOf(s.tasks[t].id), u);
    case MyParentTid => AnswerLosesNoTask(s, t, IndexOf(s.tasks[t].parent), u);
    case Pass => AnswerLosesNoTask(s, t, s.tasks[t].ret, u);
    case Unknown => AnswerLosesNoTask(s, t, s.tasks[t].ret, u);
    case Exit =>
    case Halt =>
  }

  lemma NotWaiting(s: State, t: nat)
    requires Holding(s, t)
    ensures Shape(s) && forall e :: 0 <= e < NUM_EVENTS ==> s.events[e] != t
  {
  }

  lemma FireLosesNoTask(s: State, event: nat, ret: int, u: nat)
    requires Linked(s) && event < NUM_EVENTS && IsTid(u) && s.place[u] != Lost
    ensures Fire(s, event, ret).place[u] != Lost
  {
  }

  lemma Uart1LosesNoTask(s: State, irq: Irq, u: nat)
    requires Linked(s) && IsTid(u) && s.place[u] != Lost
    ensures HandleUart1(s, irq).place[u] != Lost
  {
    hide Handshake.Handle;
    if irq.modem || irq.transmit {
      var signal := if irq.modem then Handshake.Modem(irq.cts, irq.dcts) else Handshake.Transmit;
      var uart1 := Handshake.Handle(s.uart1, signal).0;
      FireLosesNoTask(s.(uart1 := uart1), UART1_XMIT_EVENT, UART1_DATA, u);
    } else {
      FireLosesNoTask(s, UART1_RECV_EVENT, irq.data, u);
    }
  }

  lemma LostByInterrupt(s: State, irq: Irq, u: nat)
    requires Linked(s) && IsTid(u) && s.place[u] != Lost
    ensures HandleInterrupt(s, irq).place[u] != Lost
  {
    hide HandleUart1, Fire;
    FireLosesNoTask(s, TIMER_EVENT, 0, u);
    FireLosesNoTask(s, UART2_RECV_EVENT, irq.data, u);
    FireLosesNoTask(s, UART2_XMIT_EVENT, UART2_DATA, u);
    Uart1LosesNoTask(s, irq, u);
  }

  lemma LostByTrap(s: State, t: nat, trap: Trap, u: nat)
    requires Holding(s, t) && IsTid(u) && s.place[u] != Lost
    ensures Linked(s) && Inv(HandleTrap(s, t, trap))
    ensures HandleTrap(s, t, trap).place[u] == Lost <==> trap.Syscall? && Overwrites(s, trap.request, u)
  {
    hide Inv, HandleRequest, HandleInterrupt;
    TrapSettles(s, t, trap);
    match trap
    case Interrupt(irq) =>
      InterruptHolds(s, t, irq);
      InvLinked(HandleInterrupt(s, irq));
      LostByInterrupt(s, irq, u);
    case Syscall(request) => LostByRequest(s, t, request, u);
  }

  lemma ScheduleKeeps(s: State)
    requires Settled(s) && !s.halted && !Idle(s)
    ensures Shape(s) && NextTask(s) < MAX_TASKS
    ensures Schedule(s).events == s.events && Schedule(s).place == s.place[NextTask(s) := InHand]
  {
    ScheduleInv(s);
  }

  /** A task is lost exactly when AwaitEvent is called on the event it already waits for:
      the slot holds one waiter, and the newcomer replaces it. */
  lemma LostExactlyByOverwriting(s: State, trap: Trap, t: nat)
    requires Settled(s) && IsTid(t) && s.place[t] != Lost
    ensures Linked(s) && Settled(Step(s, trap))
    ensures Step(s, trap).place[t] == Lost <==>
      !s.halted && !Idle(s) && trap.Syscall? && Overwrites(s, trap.request, t)
  {
    hide Inv, HandleTrap, Schedule;
    StepInv(s, trap);
    InvLinked(s);
    if !s.halted && !Idle(s) {
      ScheduleHolding(s);
      ScheduleKeeps(s);
      LostByTrap(Schedule(s), NextTask(s), trap, t);
    }
  }

  // ----- the protocol assertions -----

  /** handleSend's assertion that the sender is not already blocked and handleReceive's
      assertion that the dequeued task is send-blocked hold whenever they are reached; and a
      receiver found receive-blocked has no one else waiting to send to it. */
  lemma ProtocolAssertionsHold(s: State, t: nat)
    requires Holding(s, t)
    ensures s.tasks[t].status != SendBlock
    ensures s.sending[t] != [] ==> s.sending[t][0] < MAX_TASKS && s.tasks[s.sending[t][0]].status == SendBlock
    ensures forall r :: 0 <= r < MAX_TASKS && s.tasks[r].status == ReceiveBlock ==> s.sending[r] == []
  {
    if s.sending[t] != [] { assert IsTid(s.sending[t][0]); }
  }

  // ----- task creation -----

  /** Creation fails for a bad priority or a missing entry point, and otherwise exactly when
      32 tasks exist: the stack arena is exhausted long before the 127 table entries are, so
      the too-many-tasks error never occurs. */
  lemma CreationOutcome(empty: State, traps: seq<Trap>, priority: int, hasCode: bool)
    requires IsEmpty(empty)
    ensures var s := Run(empty, traps);
      CreateError(s, priority, hasCode) ==
      if priority < 0 || priority >= 32 || !hasCode then -1 else if s.nextId == 33 then -3 else 0
  {
    CreateErrorIs(Run(empty, traps), priority, hasCode);
  }

  lemma CreateErrorIs(s: State, priority: int, hasCode: bool)
    requires Shape(s) && IdsOk(s)
    ensures CreateError(s, priority, hasCode) ==
      if priority < 0 || priority >= 32 || !hasCode then -1 else if s.nextId == 33 then -3 else 0
  {
    ArenaHoldsOnly32Stacks(s.nextId);
  }

  // ----- message order -----

  /** Each receiver gets messages in the order their sends were handled, each cut to the room
      it offered and announced with its full length; what is sent but not yet received is
      its send queue, in order. */
  lemma DeliveryInSendOrder(empty: State, traps: seq<Trap>, r: nat)
    requires IsEmpty(empty) && r < MAX_TASKS
    ensures FifoOk(Run(empty, traps), r)
  {
    RunHistory(empty, traps);
  }

  /** No task ever breaks the send protocol, at any point of a run. */
  lemma ProtocolNeverBroken(empty: State, traps: seq<Trap>, p: nat)
    requires IsEmpty(empty) && p < MAX_TASKS
    ensures !PhaseOf(Run(empty, traps).log, p).Broken?
  {
    RunHistory(empty, traps);
    assert PhaseOk(Run(empty, traps), p);
  }

  lemma {:induction false} BrokenStays(log: seq<Event>, i: nat, p: nat)
    requires i <= |log| && !PhaseOf(log, p).Broken?
    ensures !PhaseOf(log[..i], p).Broken?
    decreases |log| - i
  {
    if i == |log| {
      assert log[..i] == log;
    } else {
      BrokenStays(log, i + 1, p);
      assert log[..i + 1][..i] == log[..i];
    }
  }

  /** An event of p's own sends. */
  predicate OwnSend(e: Event, p: nat) {
    || (e.Sent? && e.from == p) || (e.Received? && e.from == p) || (e.Replied? && e.to == p)
  }

  ghost predicate Quiet(log: seq<Event>, from: nat, to: nat, p: nat)
    requires to <= |log|
  {
    forall m :: from <= m < to ==> !OwnSend(log[m], p)
  }

  lemma {:induction false} QueuedBySend(log: seq<Event>, i: nat, p: nat) returns (j: nat)
    requires i <= |log| && PhaseOf(log[..i], p).Queued?
    ensures j < i && Quiet(log, j + 1, i, p)
    ensures var q := PhaseOf(log[..i], p); log[j] == Sent(p, q.to, q.msg, q.cap)
  {
    assert log[..i][..i - 1] == log[..i - 1];
    if OwnSend(log[i - 1], p) {
      j := i - 1;
    } else {
      j := QueuedBySend(log, i - 1, p);
    }
  }

  lemma {:induction false} TakenBySendAndReceive(log: seq<Event>, i: nat, p: nat) returns (j: nat, k: nat)
    requires i <= |log| && PhaseOf(log[..i], p).Taken?
    ensures j < k < i && Quiet(log, j + 1, k, p) && Quiet(log, k + 1, i, p)
    ensures var q := PhaseOf(log[..i], p);
      && log[j].Sent? && log[j].from == p && log[j].to == q.receiver && log[j].cap == q.cap
      && log[k].Received? && log[k].from == p && log[k].receiver == q.receiver
  {
    assert log[..i][..i - 1] == log[..i - 1];
    if OwnSend(log[i - 1], p) {
      k := i - 1;
      j := QueuedBySend(log, k, p);
    } else {
      j, k := TakenBySendAndReceive(log, i - 1, p);
    }
  }

  ghost predicate HandsToTasks(log: seq<Event>) {
    forall i: nat :: i < |log| ==>
      (log[i].Replied? ==> IsTid(log[i].to)) && (log[i].Received? ==> IsTid(log[i].receiver))
  }

  lemma SendHandsToTasks(s: State, t: nat, to: int, msg: Message, cap: nat)
    requires Linked(s) && IsTid(t) && HandsToTasks(s.log)
    ensures HandsToTasks(HandleSend(s, t, to, msg, cap).log)
  {
  }

  lemma ReceiveHandsToTasks(s: State, t: nat, room: nat)
    requires Linked(s) && IsTid(t) && HandsToTasks(s.log)
    ensures HandsToTasks(HandleReceive(s, t, room).log)
  {
  }

  lemma ReplyHandsToTasks(s: State, t: nat, to: int, reply: Message)
    requires Linked(s) && IsTid(t) && HandsToTasks(s.log)
    ensures HandsToTasks(HandleReply(s, t, to, reply).log)
  {
  }

  lemma CallLogs(s: State, t: nat, request: Request)
    requires Linked(s) && IsTid(t) && !request.Send? && !request.Receive? && !request.Reply?
    ensures HandleRequest(s, t, request).log == s.log + [Trapped(t)]
  {
    hide HandleSend, HandleReceive, HandleReply;
  }

  lemma RequestHandsToTasks(s: State, t: nat, request: Request)
    requires Linked(s) && IsTid(t) && HandsToTasks(s.log)
    ensures HandsToTasks(HandleRequest(s, t, request).log)
  {
    hide HandleSend, HandleReceive, HandleReply, HandleCreate, HandleSpawn, AwaitInterrupt, Answer, HandleExit,
      HandleHalt;
    match request
    case Send(to, msg, cap) => SendHandsToTasks(s, t, to, msg, cap);
    case Receive(room) => ReceiveHandsToTasks(s, t, room);
    case Reply(to, msg) => ReplyHandsToTasks(s, t, to, msg);
    case _ => CallLogs(s, t, request);
  }

  lemma InterruptKeepsLog(s: State, irq: Irq)
    requires Linked(s)
    ensures HandleInterrupt(s, irq).log == s.log
  {
  }

  /** Every message and every reply in the log of a run went to a task of the table. */
  lemma {:induction false} AlwaysHandsToTasks(empty: State, traps: seq<Trap>)
    requires IsEmpty(empty)
    ensures HandsToTasks(Run(empty, traps).log)
  {
    if traps != [] {
      var before := traps[..|traps| - 1];
      AlwaysHandsToTasks(empty, before);
      StepHandsToTasks(Run(empty, before), traps[|traps| - 1]);
    }
  }

  lemma StepHandsToTasks(s: State, trap: Trap)
    requires Settled(s) && HandsToTasks(s.log)
    ensures Linked(s) && HandsToTasks(Step(s, trap).log)
  {
    hide Inv, HandleRequest, HandleInterrupt, HandsToTasks;
    InvLinked(s);
    if !s.halted && !Idle(s) {
      ScheduleHolding(s);
      InvLinked(Schedule(s));
      match trap
      case Interrupt(irq) => InterruptKeepsLog(Schedule(s), irq);
      case Syscall(request) => RequestHandsToTasks(Schedule(s), NextTask(s), request);
    }
  }

  /** Every completed send: its reply came from the very task that received it and that it
      was sent to, with no other step of the sender's in between; so each send is received
      and completed at most once. The sender gets the first bytes of the reply that fit. */
  lemma RepliesPairWithSends(empty: State, traps: seq<Trap>, i: nat) returns (j: nat, k: nat)
    requires IsEmpty(empty)
    requires i < |Run(empty, traps).log| && Run(empty, traps).log[i].Replied?
    ensures var log := Run(empty, traps).log;
      var p := log[i].to;
      && j < k < i && Quiet(log, j + 1, k, p) && Quiet(log, k + 1, i, p)
      && log[j].Sent? && log[j].from == p && log[j].to == log[i].replier
      && log[k].Received? && log[k].from == p && log[k].receiver == log[i].replier
      && log[i].data == Take(log[i].reply, log[j].cap)
  {
    hide Run, IsEmpty;
    AlwaysHandsToTasks(empty, traps);
    ProtocolNeverBroken(empty, traps, Run(empty, traps).log[i].to);
    j, k := ReplyPairs(Run(empty, traps).log, i);
  }

  lemma ReplyPairs(log: seq<Event>, i: nat) returns (j: nat, k: nat)
    requires i < |log| && log[i].Replied? && !PhaseOf(log, log[i].to).Broken?
    ensures var p := log[i].to;
      && j < k < i && Quiet(log, j + 1, k, p) && Quiet(log, k + 1, i, p)
      && log[j].Sent? && log[j].from == p && log[j].to == log[i].replier
      && log[k].Received? && log[k].from == p && log[k].receiver == log[i].replier
      && log[i].data == Take(log[i].reply, log[j].cap)
  {
    var p := log[i].to;
    BrokenStays(log, i + 1, p);
    assert log[..i + 1][..i] == log[..i];
    j, k := TakenBySendAndReceive(log, i, p);
  }

  /** From its reply until its next system call, a task's return value is the reply's length. */
  lemma SendReturnsReplyLength(empty: State, traps: seq<Trap>, p: nat)
    requires IsEmpty(empty) && p < MAX_TASKS && PhaseOf(Run(empty, traps).log, p).Completed?
    ensures var s := Run(empty, traps); s.tasks[p].ret == PhaseOf(s.log, p).ret
  {
    RunHistory(empty, traps);
    assert PhaseOk(Run(empty, traps), p);
  }

  // ----- what a task is handed -----

  lemma {:induction false} LatestIs(log: seq<Event>, k: nat, p: nat)
    requires k < |log| && Concerns(log[k], p) && forall m :: k < m < |log| ==> !Concerns(log[m], p)
    ensures Latest(log, p) == Some(log[k])
  {
    if k < |log| - 1 {
      LatestIs(log[..|log| - 1], k, p);
    }
  }

  /** Over every run: from the receipt of a message until its next call, the receiver has the
      message in its buffer, the sender's index, and the message's full length as its result. */
  lemma ReceiverIsHanded(empty: State, traps: seq<Trap>, k: nat)
    requires IsEmpty(empty) && k < |Run(empty, traps).log| && Run(empty, traps).log[k].Received?
    requires var log := Run(empty, traps).log; forall m :: k < m < |log| ==> !Concerns(log[m], log[k].receiver)
    ensures Run(empty, traps).log[k].receiver < MAX_TASKS
    ensures var s := Run(empty, traps);
      var e, task := s.log[k], s.tasks[s.log[k].receiver];
      task.sender == e.from && task.inbox == e.data && task.ret == e.length
  {
    var s := Run(empty, traps);
    RunHistory(empty, traps);
    AlwaysHandsToTasks(empty, traps);
    LatestIs(s.log, k, s.log[k].receiver);
    assert HandOk(s, s.log[k].receiver);
  }

  /** The same of a reply: the sender has it in its buffer, and its full length as its result. */
  lemma SenderIsHanded(empty: State, traps: seq<Trap>, k: nat)
    requires IsEmpty(empty) && k < |Run(empty, traps).log| && Run(empty, traps).log[k].Replied?
    requires var log := Run(empty, traps).log; forall m :: k < m < |log| ==> !Concerns(log[m], log[k].to)
    ensures Run(empty, traps).log[k].to < MAX_TASKS
    ensures var s := Run(empty, traps);
      var e, task := s.log[k], s.tasks[s.log[k].to];
      task.inbox == e.data && task.ret == |e.reply|
  {
    var s := Run(empty, traps);
    RunHistory(empty, traps);
    AlwaysHandsToTasks(empty, traps);
    LatestIs(s.log, k, s.log[k].to);
    assert HandOk(s, s.log[k].to);
  }
}
