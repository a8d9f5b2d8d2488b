/** Sends and replies to tasks that do not exist, and the places that a task never leaves. */
module KernelEnds {
  import opened Tasks
  import opened KernelState
  import opened KernelInvariant

  function At(s: State, u: nat): Place {
    if u < |s.place| then s.place[u] else Absent
  }

  function TaskAt(s: State, u: nat): Task {
    if u < |s.tasks| then s.tasks[u] else EMPTY_TASK
  }

  // ----- the task at the other end does not exist -----

  /** A send is refused at once exactly if the index is out of range; the refusal is -1. To any
      other index the sender gets no answer yet: it waits in the send queue or for its reply. */
  lemma SendRefusedIff(s: State, t: nat, to: int, msg: Message, cap: nat)
    requires Holding(s, t)
    ensures var s' := HandleSend(s, t, to, msg, cap);
      && (At(s', t) == InReady <==> !IsTid(to))
      && (!IsTid(to) ==> TaskAt(s', t).ret == -1)
      && (IsTid(to) ==> TaskAt(s', t).ret == TaskAt(s, t).ret
                        && At(s', t) == if At(s, to) == Receiving then Replying(to) else InSend(to))
  {
    hide Inv;
    TaskFacts(s, t);
    if IsTid(to) { TaskFacts(s, to); }
  }

  predicate Missing(p: Place) {
    p == Absent || p == Exited
  }

  /** A send to a task that was never created or has exited is not answered with -2, nor at all:
      the sender is queued. A reply to such a task is answered with -3. */
  lemma MissingTaskIsNotNoticed(s: State, t: nat, to: nat, msg: Message, cap: nat)
    requires Holding(s, t) && IsTid(to) && Missing(s.place[to])
    ensures var s' := HandleSend(s, t, to, msg, cap);
      && s'.place[t] == InSend(to) && s'.tasks[t].status == SendBlock && s'.tasks[t].ret == s.tasks[t].ret
      && s'.sending[to] == s.sending[to] + [t]
    ensures HandleReply(s, t, to, msg) == Answer(s, t, -3)
  {
    hide Inv;
    TaskFacts(s, to);
    TaskFacts(s, t);
  }

  /** What a Reply returns, by where the other task is; -2 is not among it. */
  lemma ReplyReturns(s: State, t: nat, to: int, reply: Message)
    requires Holding(s, t)
    ensures var s' := HandleReply(s, t, to, reply);
      && At(s', t) == InReady
      && TaskAt(s', t).ret ==
           if !IsTid(to) then -1
           else if !At(s, to).Replying? then -3
           else if At(s, to) != Replying(t) then -5
           else if |reply| > TaskAt(s, to).recvCap then -4 else 0
  {
    hide Inv;
    TaskFacts(s, t);
    if IsTid(to) { TaskFacts(s, to); }
  }

  /** The first task sends to task 2, which was never created, and waits. */
  lemma SendToNobody(empty: State, msg: Message, cap: nat)
    requires IsEmpty(empty)
    ensures Run(empty, [Syscall(Send(2, msg, cap))]).place[1] == InSend(2)
  {
    var trap := Syscall(Send(2, msg, cap));
    assert [trap][..0] == [];
    assert Run(empty, []) == Boot(empty);
    assert Run(empty, [trap]) == Step(Boot(empty), trap);
    FirstSend(empty, msg, cap);
  }

  lemma FirstSend(empty: State, msg: Message, cap: nat)
    requires IsEmpty(empty)
    ensures Linked(Boot(empty)) && Step(Boot(empty), Syscall(Send(2, msg, cap))).place[1] == InSend(2)
  {
    hide Inv, Linked;
    var s := Boot(empty);
    BootInv(empty);
    InvLinked(s);
    BootFacts(empty);
    ScheduleHolding(s);
    MissingTaskIsNotNoticed(Schedule(s), 1, 2, msg, cap);
  }

  lemma BootFacts(empty: State)
    requires IsEmpty(empty)
    ensures var s := Boot(empty);
      Shape(s) && !Idle(s) && NextTask(s) == 1 && !s.halted && s.place[2] == Absent && IsTid(1) && IsTid(2)
  {
    IdFields(1, 0, 1);
    assert Boot(empty).ready[0] == [1];
  }

  // ----- places that are never left -----

  /** The task will never run again: it has exited, or its event slot was overwritten. */
  predicate Gone(p: Place) {
    p == Exited || p == Lost
  }

  /** The task waits for a step of a task that is gone. */
  predicate Stranded(s: State, t: nat) {
    match At(s, t)
    case InSend(to) => IsTid(to) && Gone(At(s, to))
    case Replying(receiver) => IsTid(receiver) && Gone(At(s, receiver))
    case _ => false
  }

  /** The places that only a step of another task, or no step, ends. */
  predicate Passive(p: Place, running: nat) {
    Gone(p) || (p.InSend? && p.to != running) || (p.Replying? && p.receiver != running)
  }

  /** A turn of another task does nothing to a task that is passive or ready. */
  predicate Left(p: Place, running: nat) {
    Passive(p, running) || p == InReady
  }

  /** Neither the place nor the descriptor of the task has changed. */
  predicate Same(s: State, s': State, u: nat) {
    At(s', u) == At(s, u) && TaskAt(s', u) == TaskAt(s, u)
  }

  lemma AnswerKeeps(s: State, t: nat, ret: int, u: nat)
    requires Shape(s) && IsTid(t) && IsTid(u) && u != t
    ensures Same(s, Answer(s, t, ret), u)
  {
    hide PriorityOf;
  }

  lemma DeliverKeeps(s: State, t: nat, to: nat, msg: Message, cap: nat, u: nat)
    requires Shape(s) && IsTid(t) && IsTid(to) && IsTid(u) && u != t && u != to
    ensures Same(s, QueueTask(Deliver(s, t, to, msg, cap), to), u)
    ensures Same(s, BlockOnSend(s, t, to, msg, cap), u)
  {
    hide PriorityOf, Take;
  }

  lemma CompleteKeeps(s: State, t: nat, to: nat, reply: Message, u: nat)
    requires Shape(s) && IsTid(t) && IsTid(to) && IsTid(u) && u != t && u != to
    ensures Same(s, QueueTask(QueueTask(CompleteSend(s, t, to, reply), to), t), u)
  {
    hide PriorityOf, Take;
  }

  lemma NewTaskKeeps(s: State, t: nat, priority: nat, argument: int, u: nat)
    requires Shape(s) && IsTid(t) && IsTid(u) && u != t && IsTid(s.nextId) && u != s.nextId
    requires s.stackTop >= STACK_BYTES
    ensures Same(s, Answer(QueueTask(AddTask(s, priority, t), s.nextId), t, s.nextId), u)
    ensures
      Same(s, Answer(QueueTask(SetRet(AddTask(s, priority, t), s.nextId, argument), s.nextId), t, s.nextId), u)
  {
    hide PriorityOf, MakeId;
  }

  lemma SendKeeps(s: State, t: nat, to: int, msg: Message, cap: nat, u: nat)
    requires Holding(s, t) && IsTid(u) && Left(At(s, u), t)
    ensures Same(s, HandleSend(s, t, to, msg, cap), u)
  {
    hide Inv, Answer, QueueTask, Deliver, BlockOnSend;
    TaskFacts(s, t);
    AnswerKeeps(s, t, -1, u);
    if IsTid(to) {
      TaskFacts(s, to);
      if u != to {
        DeliverKeeps(s, t, to, msg, cap, u);
      } else {
        BlockKeeps(s, t, to, msg, cap);
      }
    }
  }

  lemma BlockKeeps(s: State, t: nat, to: nat, msg: Message, cap: nat)
    requires Shape(s) && IsTid(t) && IsTid(to) && t != to
    ensures Same(s, BlockOnSend(s, t, to, msg, cap), to)
  {
  }

  lemma ReceiveKeeps(s: State, t: nat, room: nat, u: nat)
    requires Holding(s, t) && IsTid(u) && Left(At(s, u), t)
    ensures s.sending[t] != [] ==> IsTid(s.sending[t][0])
    ensures Same(s, HandleReceive(s, t, room), u)
  {
    hide Inv;
    TaskFacts(s, t);
  }

  lemma ReplyKeeps(s: State, t: nat, to: int, reply: Message, u: nat)
    requires Holding(s, t) && IsTid(u) && Left(At(s, u), t)
    ensures Same(s, HandleReply(s, t, to, reply), u)
  {
    hide Inv, Answer, QueueTask, CompleteSend;
    TaskFacts(s, t);
    AnswerKeeps(s, t, -1, u);
    AnswerKeeps(s, t, -3, u);
    AnswerKeeps(s, t, -5, u);
    if IsTid(to) {
      TaskFacts(s, to);
      if u != to { CompleteKeeps(s, t, to, reply, u); }
    }
  }

  lemma AwaitKeeps(s: State, t: nat, event: nat, u: nat)
    requires Holding(s, t) && IsTid(u) && Left(At(s, u), t)
    ensures event < NUM_EVENTS ==> s.events[event] < MAX_TASKS
    ensures Same(s, AwaitInterrupt(s, t, event), u)
  {
    hide Inv;
    TaskFacts(s, t);
    if event < NUM_EVENTS { EventFact(s, event); }
  }

  /** What the invariant says of one event slot. */
  lemma EventFact(s: State, event: nat)
    requires Inv(s) && event < NUM_EVENTS
    ensures Shape(s) && (s.events[event] == 0 || (IsTid(s.events[event]) && s.place[s.events[event]].Awaiting?))
  {
  }

  lemma FireKeeps(s: State, event: nat, ret: int, u: nat)
    requires Inv(s) && event < NUM_EVENTS && IsTid(u) && !At(s, u).Awaiting?
    ensures s.events[event] < MAX_TASKS && Same(s, Fire(s, event, ret), u)
  {
    hide Inv;
    EventFact(s, event);
  }

  lemma CreateKeeps(s: State, t: nat, priority: int, hasCode: bool, argument: int, u: nat)
    requires Holding(s, t) && IsTid(u) && Left(At(s, u), t)
    ensures s.nextId > 0 && Same(s, HandleCreate(s, t, priority, hasCode), u)
    ensures Same(s, HandleSpawn(s, t, priority, hasCode, argument), u)
  {
    hide Inv, Answer, QueueTask, AddTask;
    NewIdFacts(s);
    AnswerKeeps(s, t, CreateError(s, priority, hasCode), u);
    AnswerKeeps(s, t, -1, u);
    if CreateError(s, priority, hasCode) == 0 { NewTaskKeeps(s, t, priority, argument, u); }
  }

  lemma RequestKeeps(s: State, t: nat, request: Request, u: nat)
    requires Holding(s, t) && IsTid(u) && Left(At(s, u), t)
    ensures Linked(s) && Same(s, HandleRequest(s, t, request), u)
  {
    hide Inv, HandleSend, HandleReceive, HandleReply, HandleCreate, HandleSpawn, AwaitInterrupt, IndexOf;
    InvLinked(s);
    match request
    case AwaitEvent(event) => AwaitKeeps(s, t, event, u);
    case Send(to, msg, cap) => SendKeeps(s, t, to, msg, cap, u);
    case Receive(room) => ReceiveKeeps(s, t, room, u);
    case Reply(to, msg) => ReplyKeeps(s, t, to, msg, u);
    case Create(priority, hasCode) => CreateKeeps(s, t, priority, hasCode, 0, u);
    case Spawn(priority, hasCode, argument) => CreateKeeps(s, t, priority, hasCode, argument, u);
    case _ =>
  }

  lemma Uart1Keeps(s: State, irq: Irq, u: nat)
    requires Inv(s) && IsTid(u) && !At(s, u).Awaiting?
    ensures Linked(s) && Same(s, HandleUart1(s, irq), u)
  {
    hide Inv, Fire, Handshake.Handle;
    InvLinked(s);
    var signal := if irq.modem then Handshake.Modem(irq.cts, irq.dcts) else Handshake.Transmit;
    var uart1 := Handshake.Handle(s.uart1, signal).0;
    FlagsInv(s, uart1, s.halted);
    FireKeeps(s.(uart1 := uart1), UART1_XMIT_EVENT, UART1_DATA, u);
    FireKeeps(s, UART1_RECV_EVENT, irq.data, u);
  }

  lemma InterruptKeeps(s: State, irq: Irq, u: nat)
    requires Inv(s) && IsTid(u) && !At(s, u).Awaiting?
    ensures Linked(s) && Same(s, HandleInterrupt(s, irq), u)
  {
    hide Inv, Fire, HandleUart1;
    InvLinked(s);
    FireKeeps(s, TIMER_EVENT, 0, u);
    FireKeeps(s, UART2_RECV_EVENT, irq.data, u);
    FireKeeps(s, UART2_XMIT_EVENT, UART2_DATA, u);
    Uart1Keeps(s, irq, u);
  }

  /** One turn of another task does nothing to a task that is ready, gone, or waits for a task that
      does not run. */
  lemma StepKeeps(s: State, trap: Trap, u: nat)
    requires Settled(s) && IsTid(u)
    requires s.halted || Idle(s) || (u != NextTask(s) && Left(At(s, u), NextTask(s)))
    ensures Linked(s) && Same(s, Step(s, trap), u)
  {
    hide Inv, HandleRequest, HandleInterrupt, Schedule;
    InvLinked(s);
    if !s.halted && !Idle(s) {
      ScheduleHolding(s);
      SchedulePlaces(s);
      var t := NextTask(s);
      match trap
      case Interrupt(irq) =>
        InterruptKeeps(Schedule(s), irq, u);
        InterruptHolds(Schedule(s), t, irq);
        InvLinked(HandleInterrupt(Schedule(s), irq));
      case Syscall(request) => RequestKeeps(Schedule(s), t, request, u);
    }
  }

  /** An interrupted task keeps its descriptor. It is the first of its priority again, so only a
      task of higher priority can run before it. */
  lemma InterruptedIsNext(s: State, irq: Irq)
    requires Settled(s) && !s.halted && !Idle(s)
    ensures Linked(s) && IsTid(NextTask(s))
    ensures var t, s' := NextTask(s), Step(s, Interrupt(irq));
      && Settled(s') && TaskAt(s', t) == TaskAt(s, t)
      && (!s'.halted ==>
            At(s', t) == InReady && !Idle(s') && (NextTask(s') == t || Prio(s', NextTask(s')) < Prio(s, t)))
  {
    hide Inv, HandleInterrupt, Schedule;
    StepInv(s, Interrupt(irq));
    InvLinked(s);
    var t := NextTask(s);
    ScheduleHolding(s);
    SchedulePlaces(s);
    InterruptKeeps(Schedule(s), irq, t);
    InterruptHolds(Schedule(s), t, irq);
    var s1 := HandleInterrupt(Schedule(s), irq);
    InvLinked(s1);
    if !s1.halted { FrontIsNext(s1, t); }
  }

  lemma FrontIsNext(s: State, t: nat)
    requires Inv(s) && IsTid(t) && s.place[t] == InHand
    ensures Shape(s)
    ensures var s' := AddToFront(s, t);
      !Idle(s') && (NextTask(s') == t || (IsTid(NextTask(s')) && Prio(s', NextTask(s')) < Prio(s, t)))
  {
    var s' := AddToFront(s, t);
    AddToFrontInv(s, t);
    assert s'.ready[Prio(s, t)][0] == t;
    assert Prio(s', NextTask(s')) == TopPriority(s');
  }

  lemma SchedulePlaces(s: State)
    requires Inv(s) && !Idle(s)
    ensures IsTid(NextTask(s)) && s.place[NextTask(s)] == InReady
    ensures Schedule(s).place == s.place[NextTask(s) := InHand] && Shape(Schedule(s))
    ensures Schedule(s).tasks == s.tasks
  {
    ScheduleInv(s);
  }

  /** One turn keeps the gone gone, and the stranded where they are. */
  lemma StepKeepsStranded(s: State, trap: Trap, u: nat)
    requires Settled(s) && IsTid(u) && (Gone(At(s, u)) || Stranded(s, u))
    ensures Linked(s) && At(Step(s, trap), u) == At(s, u)
    ensures Stranded(s, u) ==> Stranded(Step(s, trap), u)
  {
    hide Inv, Step;
    StepInv(s, trap);
    InvLinked(s);
    if !s.halted && !Idle(s) { SchedulePlaces(s); }
    StepKeeps(s, trap, u);
    match At(s, u)
    case InSend(to) => StepKeeps(s, trap, to);
    case Replying(receiver) => StepKeeps(s, trap, receiver);
    case _ =>
  }

  /** Over every run: a task that has exited, or was overwritten in its event slot, stays so; and
      one that waits to send to such a task, or for a reply of it, waits for ever. */
  lemma {:induction false} NeverHeardOfAgain(empty: State, traps: seq<Trap>, i: nat, u: nat)
    requires IsEmpty(empty) && i <= |traps| && IsTid(u)
    requires var s := Run(empty, traps[..i]); Gone(At(s, u)) || Stranded(s, u)
    ensures At(Run(empty, traps), u) == At(Run(empty, traps[..i]), u)
    ensures Stranded(Run(empty, traps[..i]), u) ==> Stranded(Run(empty, traps), u)
  {
    hide Inv, Step, IsEmpty, Stranded, Gone;
    if i == |traps| {
      assert traps[..i] == traps;
    } else {
      var before := traps[..|traps| - 1];
      assert before[..i] == traps[..i];
      NeverHeardOfAgain(empty, before, i, u);
      StepKeepsStranded(Run(empty, before), traps[|traps| - 1], u);
    }
  }

  /** In particular a send to an exited task never completes. */
  lemma SendToExitedNeverEnds(empty: State, traps: seq<Trap>, i: nat, t: nat, to: nat)
    requires IsEmpty(empty) && i <= |traps| && IsTid(t) && IsTid(to)
    requires var s := Run(empty, traps[..i]); At(s, t) == InSend(to) && At(s, to) == Exited
    ensures At(Run(empty, traps), t) == InSend(to)
  {
    NeverHeardOfAgain(empty, traps, i, t);
  }
}
