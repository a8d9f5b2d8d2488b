/** What the kernel does is what its tasks asked for: each wait, each logged step and each result
    is that of the task's own last call. */
module KernelCalls {
  import opened Common
  import opened Tasks
  import opened KernelState
  import opened KernelInvariant
  import opened KernelEnds

  /** The turn handles a call of task p. */
  predicate CallsIn(s: State, trap: Trap, p: nat)
    requires Linked(s)
  {
    !s.halted && !Idle(s) && trap.Syscall? && NextTask(s) == p
  }

  /** The last call of task p in a run. */
  ghost function CallOf(empty: State, traps: seq<Trap>, p: nat): Option<Request>
    requires IsEmpty(empty)
  {
    if traps == [] then None
    else
      var before, trap := traps[..|traps| - 1], traps[|traps| - 1];
      if CallsIn(Run(empty, before), trap, p) then Some(trap.request) else CallOf(empty, before, p)
  }

  /** A waiting task waits for what it called: with the message and the room that it gave. */
  predicate WaitsFor(s: State, p: nat, call: Option<Request>) {
    match At(s, p)
    case Absent => call.None?
    case InSend(to) => call == Some(Send(to, TaskAt(s, p).sendBuf, TaskAt(s, p).recvCap))
    case Replying(receiver) =>
      call.Some? && call.value.Send? && call.value.to == receiver && call.value.cap == TaskAt(s, p).recvCap
    case Receiving => call == Some(Receive(TaskAt(s, p).recvCap))
    case Awaiting(event) => call == Some(AwaitEvent(event))
    case Lost => call.Some? && call.value.AwaitEvent?
    case Exited => call == Some(Exit)
    case _ => true
  }

  // ----- one call -----

  lemma AnswerWaits(s: State, t: nat, ret: int, u: nat, call: Option<Request>)
    requires Shape(s) && IsTid(t) && IsTid(u) && (u != t ==> WaitsFor(s, u, call))
    ensures WaitsFor(Answer(s, t, ret), u, call)
  {
    hide PriorityOf;
  }

  lemma SendWaits(s: State, t: nat, to: int, msg: Message, cap: nat, u: nat, call: Option<Request>)
    requires Holding(s, t) && IsTid(u) && (u != t ==> WaitsFor(s, u, call))
    ensures WaitsFor(HandleSend(s, t, to, msg, cap), u, if u == t then Some(Send(to, msg, cap)) else call)
  {
    hide Inv, Answer, Deliver, BlockOnSend, QueueTask, WaitsFor;
    TaskFacts(s, t);
    AnswerWaits(s, t, -1, u, if u == t then Some(Send(to, msg, cap)) else call);
    if IsTid(to) {
      TaskFacts(s, to);
      DeliverWaits(s, t, to, msg, cap, u, call);
    }
  }

  lemma DeliverWaits(s: State, t: nat, to: nat, msg: Message, cap: nat, u: nat, call: Option<Request>)
    requires Shape(s) && IsTid(t) && IsTid(to) && IsTid(u) && (u != t ==> WaitsFor(s, u, call))
    ensures var after := if u == t then Some(Send(to, msg, cap)) else call;
      && (to != t ==> WaitsFor(QueueTask(Deliver(s, t, to, msg, cap), to), u, after))
      && WaitsFor(BlockOnSend(s, t, to, msg, cap), u, after)
  {
    hide PriorityOf, Take;
  }

  lemma ReceiveWaits(s: State, t: nat, room: nat, u: nat, call: Option<Request>)
    requires Holding(s, t) && IsTid(u) && (u != t ==> WaitsFor(s, u, call))
    ensures s.sending[t] != [] ==> IsTid(s.sending[t][0])
    ensures WaitsFor(HandleReceive(s, t, room), u, if u == t then Some(Receive(room)) else call)
  {
    hide Inv, PriorityOf, Min, Take;
    TaskFacts(s, t);
  }

  lemma CompleteWaits(s: State, t: nat, to: nat, reply: Message, u: nat, call: Option<Request>)
    requires Shape(s) && IsTid(t) && IsTid(to) && IsTid(u) && (u != t ==> WaitsFor(s, u, call))
    ensures WaitsFor(QueueTask(QueueTask(CompleteSend(s, t, to, reply), to), t), u, call)
  {
    hide PriorityOf, Take;
  }

  lemma ReplyWaits(s: State, t: nat, to: int, reply: Message, u: nat, call: Option<Request>)
    requires Holding(s, t) && IsTid(u) && (u != t ==> WaitsFor(s, u, call))
    ensures WaitsFor(HandleReply(s, t, to, reply), u, if u == t then Some(Reply(to, reply)) else call)
  {
    hide Inv, Answer, CompleteSend, WaitsFor;
    TaskFacts(s, t);
    var after := if u == t then Some(Reply(to, reply)) else call;
    AnswerWaits(s, t, -1, u, after);
    AnswerWaits(s, t, -3, u, after);
    AnswerWaits(s, t, -5, u, after);
    if IsTid(to) {
      TaskFacts(s, to);
      CompleteWaits(s, t, to, reply, u, after);
    }
  }

  lemma AwaitWaits(s: State, t: nat, event: nat, u: nat, call: Option<Request>)
    requires Holding(s, t) && IsTid(u) && (u != t ==> WaitsFor(s, u, call))
    ensures event < NUM_EVENTS ==> s.events[event] < MAX_TASKS
    ensures WaitsFor(AwaitInterrupt(s, t, event), u, if u == t then Some(AwaitEvent(event)) else call)
  {
    hide Inv, PriorityOf;
    TaskFacts(s, t);
    if event < NUM_EVENTS { EventFact(s, event); }
  }

  /** A new task waits for nothing. */
  lemma NewTaskWaits(s: State, s': State, u: nat, call: Option<Request>)
    requires Shape(s) && Shape(s') && s.nextId < MAX_TASKS && IsTid(u) && WaitsFor(s, u, call)
    requires s'.place == s.place[s.nextId := InReady]
    requires u != s.nextId ==> TaskAt(s', u) == TaskAt(s, u)
    ensures WaitsFor(s', u, call)
  {
  }

  lemma CreateWaits(s: State, t: nat, priority: int, hasCode: bool, u: nat, call: Option<Request>)
    requires Holding(s, t) && IsTid(u) && (u != t ==> WaitsFor(s, u, call))
    ensures s.nextId > 0 && WaitsFor(HandleCreate(s, t, priority, hasCode), u, call)
  {
    hide Inv, Answer, WaitsFor, MakeId, PriorityOf;
    NewIdFacts(s);
    var error := CreateError(s, priority, hasCode);
    if error != 0 {
      AnswerWaits(s, t, error, u, call);
    } else {
      var s' := QueueTask(AddTask(s, priority, t), s.nextId);
      if u != t { NewTaskWaits(s, s', u, call); }
      AnswerWaits(s', t, s.nextId, u, call);
    }
  }

  lemma SpawnWaits(s: State, t: nat, priority: int, hasCode: bool, argument: int, u: nat, call: Option<Request>)
    requires Holding(s, t) && IsTid(u) && (u != t ==> WaitsFor(s, u, call))
    ensures s.nextId > 0 && WaitsFor(HandleSpawn(s, t, priority, hasCode, argument), u, call)
  {
    hide Inv, Answer, WaitsFor, MakeId, PriorityOf;
    NewIdFacts(s);
    if CreateError(s, priority, hasCode) != 0 {
      AnswerWaits(s, t, -1, u, call);
    } else {
      var s' := QueueTask(SetRet(AddTask(s, priority, t), s.nextId, argument), s.nextId);
      if u != t { NewTaskWaits(s, s', u, call); }
      AnswerWaits(s', t, s.nextId, u, call);
    }
  }

  lemma RequestWaits(s: State, t: nat, request: Request, u: nat, call: Option<Request>)
    requires Holding(s, t) && IsTid(u) && (u != t ==> WaitsFor(s, u, call))
    ensures Linked(s) && WaitsFor(HandleRequest(s, t, request), u, if u == t then Some(request) else call)
  {
    hide Inv, HandleSend, HandleReceive, HandleReply, HandleCreate, HandleSpawn, AwaitInterrupt, IndexOf;
    InvLinked(s);
    match request
    case AwaitEvent(event) => AwaitWaits(s, t, event, u, call);
    case Send(to, msg, cap) => SendWaits(s, t, to, msg, cap, u, call);
    case Receive(room) => ReceiveWaits(s, t, room, u, call);
    case Reply(to, msg) => ReplyWaits(s, t, to, msg, u, call);
    case Create(priority, hasCode) =>
      CreateWaits(s, t, priority, hasCode, u, if u == t then Some(request) else call);
    case Spawn(priority, hasCode, argument) =>
      SpawnWaits(s, t, priority, hasCode, argument, u, if u == t then Some(request) else call);
    case _ =>
  }

  // ----- interrupts and turns -----

  lemma FireWaits(s: State, event: nat, ret: int, u: nat, call: Option<Request>)
    requires Inv(s) && event < NUM_EVENTS && IsTid(u) && WaitsFor(s, u, call)
    ensures s.events[event] < MAX_TASKS && WaitsFor(Fire(s, event, ret), u, call)
  {
    hide Inv, PriorityOf;
    EventFact(s, event);
  }

  lemma InterruptWaits(s: State, irq: Irq, u: nat, call: Option<Request>)
    requires Inv(s) && IsTid(u) && WaitsFor(s, u, call)
    ensures Linked(s) && WaitsFor(HandleInterrupt(s, irq), u, call)
  {
    hide Inv, Fire, Handshake.Handle;
    InvLinked(s);
    var signal := if irq.modem then Handshake.Modem(irq.cts, irq.dcts) else Handshake.Transmit;
    var uart1 := Handshake.Handle(s.uart1, signal).0;
    FlagsInv(s, uart1, s.halted);
    FireWaits(s.(uart1 := uart1), UART1_XMIT_EVENT, UART1_DATA, u, call);
    FireWaits(s, UART1_RECV_EVENT, irq.data, u, call);
    FireWaits(s, TIMER_EVENT, 0, u, call);
    FireWaits(s, UART2_RECV_EVENT, irq.data, u, call);
    FireWaits(s, UART2_XMIT_EVENT, UART2_DATA, u, call);
  }

  lemma TurnWaits(s: State, trap: Trap, u: nat, call: Option<Request>)
    requires Settled(s) && IsTid(u) && WaitsFor(s, u, call)
    ensures Linked(s) && WaitsFor(Step(s, trap), u, if CallsIn(s, trap, u) then Some(trap.request) else call)
  {
    hide Inv, HandleRequest, HandleInterrupt, Schedule;
    InvLinked(s);
    if !s.halted && !Idle(s) {
      ScheduleHolding(s);
      SchedulePlaces(s);
      var t := NextTask(s);
      match trap
      case Interrupt(irq) =>
        InterruptWaits(Schedule(s), irq, u, call);
        InterruptHolds(Schedule(s), t, irq);
        InvLinked(HandleInterrupt(Schedule(s), irq));
      case Syscall(request) => RequestWaits(Schedule(s), t, request, u, call);
    }
  }

  lemma BootWaits(empty: State, p: nat)
    requires IsEmpty(empty) && IsTid(p)
    ensures WaitsFor(Boot(empty), p, None)
  {
  }

  /** Over every run: whatever a task waits for, its last call asked for; it waits with the message
      and the room given there. */
  lemma {:induction false} WaitsForItsCall(empty: State, traps: seq<Trap>, p: nat)
    requires IsEmpty(empty) && IsTid(p)
    ensures WaitsFor(Run(empty, traps), p, CallOf(empty, traps, p))
  {
    hide Inv, Linked, Step, IsEmpty, WaitsFor, CallsIn;
    if traps == [] {
      BootWaits(empty, p);
    } else {
      var before := traps[..|traps| - 1];
      WaitsForItsCall(empty, before, p);
      TurnWaits(Run(empty, before), traps[|traps| - 1], p, CallOf(empty, before, p));
    }
  }

  // ----- the log -----

  /** What a call of task t adds to the log, in terms of it and of the last calls of the others. */
  ghost function NewEvents(empty: State, traps: seq<Trap>, t: nat, request: Request): seq<Event>
    requires IsEmpty(empty) && IsTid(t)
  {
    var s := Run(empty, traps);
    match request
    case Send(to, msg, cap) =>
      if !IsTid(to) then [Trapped(t)]
      else if At(s, to) != Receiving then [Sent(t, to, msg, cap)]
      else
        (match CallOf(empty, traps, to)
         case Some(Receive(room)) => [Sent(t, to, msg, cap), Received(to, t, room, Take(msg, room), |msg|)]
         case _ => [])
    case Receive(room) =>
      if s.sending[t] == [] then [Trapped(t)]
      else
        var from := s.sending[t][0];
        (match CallOf(empty, traps, from)
         case Some(Send(_, msg, _)) => [Received(t, from, room, Take(msg, room), |msg|)]
         case _ => [])
    case Reply(to, reply) =>
      if !IsTid(to) || At(s, to) != Replying(t) then [Trapped(t)]
      else
        (match CallOf(empty, traps, to)
         case Some(Send(_, _, cap)) => [Replied(t, to, reply, Take(reply, cap))]
         case _ => [])
    case _ => [Trapped(t)]
  }

  lemma SendLogs(s: State, t: nat, to: int, msg: Message, cap: nat)
    requires Holding(s, t)
    ensures HandleSend(s, t, to, msg, cap).log == s.log +
      if !IsTid(to) then [Trapped(t)]
      else if At(s, to) != Receiving then [Sent(t, to, msg, cap)]
      else
        var room := TaskAt(s, to).recvCap;
        [Sent(t, to, msg, cap), Received(to, t, room, Take(msg, room), |msg|)]
  {
    hide Inv, Take, PriorityOf;
    if IsTid(to) { TaskFacts(s, to); }
  }

  lemma ReceiveLogs(s: State, t: nat, room: nat)
    requires Holding(s, t)
    ensures s.sending[t] != [] ==> IsTid(s.sending[t][0]) && At(s, s.sending[t][0]) == InSend(t)
    ensures HandleReceive(s, t, room).log == s.log +
      if s.sending[t] == [] then [Trapped(t)]
      else
        var from := s.sending[t][0];
        var msg := TaskAt(s, from).sendBuf;
        [Received(t, from, room, Take(msg, room), |msg|)]
  {
    hide Inv, Take, PriorityOf;
    TaskFacts(s, t);
  }

  lemma ReplyLogs(s: State, t: nat, to: int, reply: Message)
    requires Holding(s, t)
    ensures HandleReply(s, t, to, reply).log == s.log +
      if !IsTid(to) || At(s, to) != Replying(t) then [Trapped(t)]
      else [Replied(t, to, reply, Take(reply, TaskAt(s, to).recvCap))]
  {
    hide Inv, Take, PriorityOf;
    if IsTid(to) { TaskFacts(s, to); }
  }

  lemma OtherLogs(s: State, t: nat, request: Request)
    requires Linked(s) && IsTid(t) && !request.Send? && !request.Receive? && !request.Reply?
    ensures HandleRequest(s, t, request).log == s.log + [Trapped(t)]
  {
    hide HandleSend, HandleReceive, HandleReply;
  }

  lemma InterruptLogs(s: State, irq: Irq)
    requires Linked(s)
    ensures HandleInterrupt(s, irq).log == s.log
  {
  }

  /** Over every run: a call adds to the log what it and the last calls of the other side say, and
      nothing else does. */
  lemma TurnLogs(empty: State, traps: seq<Trap>, trap: Trap)
    requires IsEmpty(empty)
    ensures var s := Run(empty, traps);
      if s.halted || Idle(s) || trap.Interrupt? then Step(s, trap).log == s.log
      else IsTid(NextTask(s)) && Step(s, trap).log == s.log + NewEvents(empty, traps, NextTask(s), trap.request)
  {
    hide Inv, HandleRequest, HandleInterrupt, Schedule, NewEvents, IsEmpty, Run;
    var s := Run(empty, traps);
    if !s.halted && !Idle(s) {
      ScheduleHolding(s);
      ScheduleLooks(s);
      InvLinked(Schedule(s));
      match trap
      case Interrupt(irq) =>
        InterruptLogs(Schedule(s), irq);
        InterruptHolds(Schedule(s), NextTask(s), irq);
        InvLinked(HandleInterrupt(Schedule(s), irq));
      case Syscall(request) => CallLogs(empty, traps, request);
    }
  }

  lemma CallLogs(empty: State, traps: seq<Trap>, request: Request)
    requires IsEmpty(empty)
    requires var s := Run(empty, traps); !s.halted && !Idle(s)
    ensures var s := Run(empty, traps);
      && IsTid(NextTask(s)) && Holding(Schedule(s), NextTask(s)) && Linked(Schedule(s))
      && HandleRequest(Schedule(s), NextTask(s), request).log ==
           s.log + NewEvents(empty, traps, NextTask(s), request)
  {
    hide Inv, HandleSend, HandleReceive, HandleReply, Run, IsEmpty, CallOf, Take;
    var s := Run(empty, traps);
    ScheduleHolding(s);
    ScheduleLooks(s);
    var t, s1 := NextTask(s), Schedule(s);
    InvLinked(s1);
    match request
    case Send(to, msg, cap) =>
      SendLogs(s1, t, to, msg, cap);
      if IsTid(to) { WaitsForItsCall(empty, traps, to); }
    case Receive(room) =>
      ReceiveLogs(s1, t, room);
      if s.sending[t] != [] { WaitsForItsCall(empty, traps, s.sending[t][0]); }
    case Reply(to, reply) =>
      ReplyLogs(s1, t, to, reply);
      if IsTid(to) { WaitsForItsCall(empty, traps, to); }
    case _ => OtherLogs(s1, t, request);
  }

  lemma ScheduleLooks(s: State)
    requires Inv(s) && !Idle(s)
    ensures IsTid(NextTask(s)) && At(s, NextTask(s)) == InReady && Shape(Schedule(s))
    ensures Schedule(s).log == s.log && Schedule(s).tasks == s.tasks && Schedule(s).sending == s.sending
    ensures Schedule(s).nextId == s.nextId && Schedule(s).stackTop == s.stackTop
    ensures Schedule(s).place == s.place[NextTask(s) := InHand]
  {
    ScheduleInv(s);
  }
}
