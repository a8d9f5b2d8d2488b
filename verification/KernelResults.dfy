/** What a turn gives to its task, how long the task has it, and who runs next. */
module KernelResults {
  import opened Common
  import opened Tasks
  import opened KernelState
  import opened KernelInvariant
  import opened KernelEnds
  import opened KernelCalls

  // ----- results last until the next call -----

  lemma TurnKeepsReady(s: State, trap: Trap, p: nat)
    requires Settled(s) && IsTid(p) && (At(s, p) == InReady || s.halted)
    ensures Linked(s)
    ensures !CallsIn(s, trap, p) ==>
      var s' := Step(s, trap); TaskAt(s', p) == TaskAt(s, p) && (At(s', p) == InReady || s'.halted)
  {
    hide Inv, HandleTrap, Schedule;
    InvLinked(s);
    if !s.halted && !Idle(s) && p == NextTask(s) {
      if trap.Interrupt? { InterruptedIsNext(s, trap.irq); }
    } else {
      StepKeeps(s, trap, p);
    }
  }

  /** Over every run: a ready task keeps its descriptor until it makes a call, and with it what it
      was handed and what its last call, or its creator, gave it in r0. */
  lemma {:induction false} KeptUntilCall(empty: State, traps: seq<Trap>, i: nat, p: nat)
    requires IsEmpty(empty) && i <= |traps| && IsTid(p) && At(Run(empty, traps[..i]), p) == InReady
    requires forall m: nat :: i <= m < |traps| ==> !CallsIn(Run(empty, traps[..m]), traps[m], p)
    ensures var s := Run(empty, traps);
      TaskAt(s, p) == TaskAt(Run(empty, traps[..i]), p) && (At(s, p) == InReady || s.halted)
  {
    hide Inv, Linked, Step, IsEmpty, CallsIn;
    if i == |traps| {
      assert traps[..i] == traps;
    } else {
      var before := traps[..|traps| - 1];
      assert before[..i] == traps[..i];
      forall m: nat | i <= m < |before| ensures !CallsIn(Run(empty, before[..m]), before[m], p) {
        assert before[..m] == traps[..m];
      }
      KeptUntilCall(empty, before, i, p);
      TurnKeepsReady(Run(empty, before), traps[|traps| - 1], p);
    }
  }

  // ----- what calls return -----

  /** A created task is ready with the priority asked for, and its creator has its index. */
  ghost predicate Made(s: State, s': State, t: nat, child: nat, priority: int) {
    && IsTid(child) && At(s, child) == Absent && At(s', child) == InReady
    && PriorityOf(TaskAt(s', child).id) == priority && TaskAt(s', child).parent == t
    && TaskAt(s', child).sp == s.stackTop - 60 && s'.nextId == s.nextId + 1
    && At(s', t) == InReady && TaskAt(s', t).ret == child
  }

  /** A call that failed has returned this, and made no task. */
  ghost predicate Failed(s: State, s': State, t: nat, error: int) {
    s'.nextId == s.nextId && At(s', t) == InReady && TaskAt(s', t).ret == error
  }

  lemma CreateReturns(s: State, t: nat, priority: int, hasCode: bool)
    requires Holding(s, t)
    ensures Linked(s)
    ensures var error := CreateError(s, priority, hasCode);
      var s' := HandleRequest(s, t, Create(priority, hasCode));
      if error == 0 then Made(s, s', t, s.nextId, priority) else Failed(s, s', t, error)
  {
    hide Inv, MakeId, PriorityOf;
    InvLinked(s);
    NewIdFacts(s);
    if CreateError(s, priority, hasCode) == 0 { IdFields(s.nextId, priority, s.nextId); }
  }

  /** Spawn gives the new task its argument; for every error it returns -1. */
  lemma SpawnReturns(s: State, t: nat, priority: int, hasCode: bool, argument: int)
    requires Holding(s, t)
    ensures Linked(s)
    ensures var s' := HandleRequest(s, t, Spawn(priority, hasCode, argument));
      if CreateError(s, priority, hasCode) == 0
      then Made(s, s', t, s.nextId, priority) && TaskAt(s', s.nextId).ret == argument
      else Failed(s, s', t, -1)
  {
    hide Inv, MakeId, PriorityOf;
    InvLinked(s);
    NewIdFacts(s);
    if CreateError(s, priority, hasCode) == 0 { IdFields(s.nextId, priority, s.nextId); }
  }

  /** MyTid returns the caller's index, which is where its descriptor is; MyParentTid that of its
      creator; Pass and an unknown call leave r0 alone; AwaitEvent fails for an unknown event. */
  lemma OtherReturns(s: State, t: nat, request: Request)
    requires Holding(s, t)
    requires request.MyTid? || request.MyParentTid? || request.Pass? || request.Unknown?
      || (request.AwaitEvent? && request.event >= NUM_EVENTS)
    ensures Linked(s)
    ensures var s' := HandleRequest(s, t, request);
      At(s', t) == InReady && TaskAt(s', t).ret ==
        if request.MyTid? then t
        else if request.MyParentTid? then IndexOf(TaskAt(s, t).parent)
        else if request.AwaitEvent? then -1
        else TaskAt(s, t).ret
  {
    hide Inv, PriorityOf;
    InvLinked(s);
    IndexFact(s, t);
  }

  // ----- parents, priorities and stacks -----

  /** The descriptor still has the parent, the id with the priority, and the stack it was made with. */
  predicate SameOrigin(s: State, s': State, u: nat) {
    TaskAt(s', u).parent == TaskAt(s, u).parent && TaskAt(s', u).id == TaskAt(s, u).id
    && TaskAt(s', u).sp == TaskAt(s, u).sp
  }

  /** Where task t's trap frame begins: below the stacks of all tasks before it. */
  function StackOf(t: nat): int {
    STACK_HIGH - STACK_BYTES * (t - 1) - 60
  }

  lemma RequestKeepsIds(s: State, t: nat, request: Request)
    requires Linked(s) && IsTid(t) && !request.Create? && !request.Spawn?
    ensures HandleRequest(s, t, request).nextId == s.nextId
  {
  }

  lemma SendKeepsOrigin(s: State, t: nat, to: int, msg: Message, cap: nat, u: nat)
    requires Linked(s) && IsTid(t) && IsTid(u)
    ensures SameOrigin(s, HandleSend(s, t, to, msg, cap), u)
  {
    hide PriorityOf, Take;
  }

  lemma ReceiveKeepsOrigin(s: State, t: nat, room: nat, u: nat)
    requires Linked(s) && IsTid(t) && IsTid(u)
    ensures SameOrigin(s, HandleReceive(s, t, room), u)
  {
    hide PriorityOf, Take;
  }

  lemma ReplyKeepsOrigin(s: State, t: nat, to: int, reply: Message, u: nat)
    requires Linked(s) && IsTid(t) && IsTid(u)
    ensures SameOrigin(s, HandleReply(s, t, to, reply), u)
  {
    hide PriorityOf, Take;
  }

  lemma CreateKeepsOrigin(s: State, t: nat, priority: int, hasCode: bool, argument: int, u: nat)
    requires Linked(s) && IsTid(t) && IsTid(u) && u != s.nextId
    ensures SameOrigin(s, HandleCreate(s, t, priority, hasCode), u)
    ensures SameOrigin(s, HandleSpawn(s, t, priority, hasCode, argument), u)
  {
    hide PriorityOf, MakeId;
  }

  lemma RequestKeepsOrigin(s: State, t: nat, request: Request, u: nat)
    requires Linked(s) && IsTid(t) && IsTid(u) && (request.Exit? ==> u != t)
    requires request.Create? || request.Spawn? ==> u != s.nextId
    ensures SameOrigin(s, HandleRequest(s, t, request), u)
  {
    hide HandleSend, HandleReceive, HandleReply, HandleCreate, HandleSpawn, PriorityOf, IndexOf;
    match request
    case Create(priority, hasCode) => CreateKeepsOrigin(s, t, priority, hasCode, 0, u);
    case Spawn(priority, hasCode, argument) => CreateKeepsOrigin(s, t, priority, hasCode, argument, u);
    case Send(to, msg, cap) => SendKeepsOrigin(s, t, to, msg, cap, u);
    case Receive(room) => ReceiveKeepsOrigin(s, t, room, u);
    case Reply(to, msg) => ReplyKeepsOrigin(s, t, to, msg, u);
    case _ =>
  }

  lemma InterruptKeepsOrigin(s: State, irq: Irq, u: nat)
    requires Linked(s) && IsTid(u)
    ensures SameOrigin(s, HandleInterrupt(s, irq), u)
    ensures HandleInterrupt(s, irq).nextId == s.nextId
  {
    hide PriorityOf, Handshake.Handle;
  }

  /** A turn makes at most the next task, with its caller the parent, and a stack below the others;
      no other task's parent, id or stack changes until it exits. */
  lemma TurnKeepsOrigin(s: State, trap: Trap, u: nat)
    requires Settled(s) && IsTid(u)
    ensures Linked(s)
    ensures var s' := Step(s, trap);
      && (At(s, u) != Absent && At(s', u) != Exited ==> SameOrigin(s, s', u))
      && (At(s, u) == Absent && At(s', u) != Absent ==>
            !Idle(s) && trap.Syscall? && TaskAt(s', u).parent == NextTask(s) && TaskAt(s', u).sp == StackOf(u))
  {
    hide Inv, HandleRequest, HandleInterrupt, Schedule;
    InvLinked(s);
    StepInv(s, trap);
    AbsentIff(s, u);
    AbsentIff(Step(s, trap), u);
    if !s.halted && !Idle(s) {
      ScheduleHolding(s);
      ScheduleLooks(s);
      InvLinked(Schedule(s));
      var t, s1 := NextTask(s), Schedule(s);
      match trap
      case Interrupt(irq) =>
        InterruptKeepsOrigin(s1, irq, u);
        InterruptHolds(s1, t, irq);
        InvLinked(HandleInterrupt(s1, irq));
      case Syscall(request) => CallKeepsOrigin(s1, t, request, u);
    }
  }

  lemma AbsentIff(s: State, u: nat)
    requires Inv(s) && IsTid(u)
    ensures At(s, u) == Absent <==> u >= s.nextId
  {
  }

  lemma CallKeepsOrigin(s: State, t: nat, request: Request, u: nat)
    requires Holding(s, t) && IsTid(u)
    ensures Linked(s)
    ensures var s' := HandleRequest(s, t, request);
      && (u < s.nextId && At(s', u) != Exited ==> SameOrigin(s, s', u))
      && (s.nextId <= u < s'.nextId ==> TaskAt(s', u).parent == t && TaskAt(s', u).sp == StackOf(u))
  {
    hide Inv, HandleSend, HandleReceive, HandleReply, HandleCreate, HandleSpawn, AwaitInterrupt;
    InvLinked(s);
    StackTopFact(s);
    match request
    case Create(priority, hasCode) =>
      CreateReturns(s, t, priority, hasCode);
      if u < s.nextId { RequestKeepsOrigin(s, t, request, u); }
    case Spawn(priority, hasCode, argument) =>
      SpawnReturns(s, t, priority, hasCode, argument);
      if u < s.nextId { RequestKeepsOrigin(s, t, request, u); }
    case Exit => if u != t { RequestKeepsOrigin(s, t, request, u); }
    case _ =>
      RequestKeepsIds(s, t, request);
      RequestKeepsOrigin(s, t, request, u);
  }

  /** The task whose call made task p in a run; 0 for the first task. */
  ghost function CreatorOf(empty: State, traps: seq<Trap>, p: nat): nat
    requires IsEmpty(empty)
  {
    if traps == [] then 0
    else
      var before := traps[..|traps| - 1];
      var s := Run(empty, before);
      if At(s, p) == Absent && At(Run(empty, traps), p) != Absent && !Idle(s) then NextTask(s)
      else CreatorOf(empty, before, p)
  }

  /** Over every run the parent of a task is the task that made it, which MyParentTid returns; and
      its stack is where its number says. */
  lemma {:induction false} ParentIsCreator(empty: State, traps: seq<Trap>, p: nat)
    requires IsEmpty(empty) && IsTid(p) && Alive(At(Run(empty, traps), p))
    ensures TaskAt(Run(empty, traps), p).parent == CreatorOf(empty, traps, p) < MAX_TASKS
    ensures TaskAt(Run(empty, traps), p).sp == StackOf(p)
  {
    hide Inv, Step, IsEmpty;
    if traps == [] {
      BootOrigin(empty, p);
    } else {
      var before, trap := traps[..|traps| - 1], traps[|traps| - 1];
      var s := Run(empty, before);
      TurnKeepsOrigin(s, trap, p);
      if At(s, p) == Absent {
        ScheduleLooks(s);
      } else {
        if At(s, p) == Exited { ExitedStays(s, trap, p); }
        ParentIsCreator(empty, before, p);
      }
    }
  }

  lemma BootOrigin(empty: State, p: nat)
    requires IsEmpty(empty) && IsTid(p)
    ensures TaskAt(Boot(empty), p).parent == 0
    ensures At(Boot(empty), p) != Absent ==> TaskAt(Boot(empty), p).sp == StackOf(p)
  {
  }

  /** So no two tasks share a word of stack, and none leaves the arena. */
  lemma StacksAreDisjoint(empty: State, traps: seq<Trap>, p: nat, q: nat)
    requires IsEmpty(empty) && IsTid(p) && IsTid(q) && p != q
    requires Alive(At(Run(empty, traps), p)) && Alive(At(Run(empty, traps), q))
    ensures var s := Run(empty, traps); var a, b := TaskAt(s, p).sp, TaskAt(s, q).sp;
      && (a + STACK_BYTES <= b || b + STACK_BYTES <= a)
      && STACK_LOW <= a + 60 - STACK_BYTES && a + 60 <= STACK_HIGH
  {
    hide Run, Linked, Settled, IsEmpty, Alive, Inv, CreatorOf;
    ParentIsCreator(empty, traps, p);
    ParentIsCreator(empty, traps, q);
    AliveIsMade(empty, traps, p);
    ArenaHoldsOnly32Stacks(p);
  }

  lemma AliveIsMade(empty: State, traps: seq<Trap>, p: nat)
    requires IsEmpty(empty) && IsTid(p) && Alive(At(Run(empty, traps), p))
    ensures p <= STACKS
  {
    hide IsEmpty;
    AbsentIff(Run(empty, traps), p);
    NewIdFacts(Run(empty, traps));
  }

  lemma ExitedStays(s: State, trap: Trap, p: nat)
    requires Settled(s) && IsTid(p) && At(s, p) == Exited
    ensures Linked(s) && At(Step(s, trap), p) == Exited
  {
    hide Inv, Step;
    InvLinked(s);
    if !s.halted && !Idle(s) { SchedulePlaces(s); }
    StepKeeps(s, trap, p);
  }

  // ----- who is ready, and in which order -----

  /** The tasks of this priority, in the given order. */
  function OfPriority(s: State, ts: seq<nat>, p: nat): seq<nat> {
    if ts == [] then []
    else
      var last := ts[|ts| - 1];
      OfPriority(s, ts[..|ts| - 1], p) + if PriorityOf(TaskAt(s, last).id) == p then [last] else []
  }

  /** The tasks that a call makes ready, in order: a waiting receiver goes before no one, a sender
      before its replier, a new task before its creator. */
  function Readied(s: State, t: nat, request: Request): seq<nat> {
    match request
    case AwaitEvent(event) => if event < NUM_EVENTS then [] else [t]
    case Send(to, _, _) => if !IsTid(to) then [t] else if At(s, to) == Receiving then [to] else []
    case Receive(_) => if t < |s.sending| && s.sending[t] != [] then [t] else []
    case Reply(to, _) => if IsTid(to) && At(s, to) == Replying(t) then [to, t] else [t]
    case Create(priority, hasCode) => if CreateError(s, priority, hasCode) == 0 then [s.nextId, t] else [t]
    case Spawn(priority, hasCode, _) => if CreateError(s, priority, hasCode) == 0 then [s.nextId, t] else [t]
    case Exit => []
    case Halt => []
    case _ => [t]
  }

  /** The tasks go behind those that are ready already, each in the queue of its priority. */
  ghost predicate Behind(s: State, s': State, ts: seq<nat>) {
    && Shape(s) && Shape(s')
    && forall p: nat :: p < MAX_PRIORITY ==> s'.ready[p] == s.ready[p] + OfPriority(s', ts, p)
  }

  lemma OneReadied(s: State, t: nat, p: nat)
    ensures OfPriority(s, [], p) == []
    ensures OfPriority(s, [t], p) == if PriorityOf(TaskAt(s, t).id) == p then [t] else []
  {
    assert [t][..0] == [];
  }

  lemma TwoReadied(s: State, t: nat, u: nat, p: nat)
    ensures OfPriority(s, [t, u], p) == OfPriority(s, [t], p) + OfPriority(s, [u], p)
  {
    assert [t, u][..1] == [t];
    OneReadied(s, u, p);
  }

  lemma AnswerBehind(s: State, t: nat, ret: int)
    requires Shape(s) && IsTid(t)
    ensures Behind(s, Answer(s, t, ret), [t])
  {
    hide PriorityOf;
    forall p: nat | p < MAX_PRIORITY
      ensures Answer(s, t, ret).ready[p] == s.ready[p] + OfPriority(Answer(s, t, ret), [t], p)
    {
      OneReadied(Answer(s, t, ret), t, p);
    }
  }

  lemma QueueBehind(s: State, t: nat)
    requires Shape(s) && IsTid(t)
    ensures Behind(s, QueueTask(s, t), [t])
  {
    hide PriorityOf;
    forall p: nat | p < MAX_PRIORITY
      ensures QueueTask(s, t).ready[p] == s.ready[p] + OfPriority(QueueTask(s, t), [t], p)
    {
      OneReadied(QueueTask(s, t), t, p);
    }
  }

  lemma NoneBehind(s: State, s': State)
    requires Shape(s) && Shape(s') && s'.ready == s.ready
    ensures Behind(s, s', [])
  {
    forall p: nat | p < MAX_PRIORITY ensures s'.ready[p] == s.ready[p] + OfPriority(s', [], p) { OneReadied(s', 0, p); }
  }

  lemma TwoBehind(s: State, s1: State, s2: State, t: nat, u: nat)
    requires Behind(s, s1, [t]) && Behind(s1, s2, [u]) && TaskAt(s2, t).id == TaskAt(s1, t).id
    ensures Behind(s, s2, [t, u])
  {
    forall p: nat | p < MAX_PRIORITY ensures s2.ready[p] == s.ready[p] + OfPriority(s2, [t, u], p) {
      OneReadied(s1, t, p);
      OneReadied(s2, t, p);
      TwoReadied(s2, t, u, p);
      assert s1.ready[p] == s.ready[p] + OfPriority(s1, [t], p);
      assert s2.ready[p] == s1.ready[p] + OfPriority(s2, [u], p);
    }
  }

  lemma SendBehind(s: State, t: nat, to: int, msg: Message, cap: nat)
    requires Holding(s, t)
    ensures Behind(s, HandleSend(s, t, to, msg, cap), Readied(s, t, Send(to, msg, cap)))
  {
    hide Inv, Behind, Answer, Deliver, BlockOnSend;
    InvShape(s);
    if !IsTid(to) {
      AnswerBehind(s, t, -1);
    } else {
      TaskFacts(s, to);
      if s.tasks[to].status == ReceiveBlock {
        SameReady(s, t, to, msg, cap);
        MovedBehind(s, Deliver(s, t, to, msg, cap), to);
      } else {
        SameReady(s, t, to, msg, cap);
        NoneBehind(s, BlockOnSend(s, t, to, msg, cap));
      }
    }
  }

  lemma SameReady(s: State, t: nat, to: nat, msg: Message, cap: nat)
    requires Shape(s) && IsTid(t) && IsTid(to)
    ensures var s' := Deliver(s, t, to, msg, cap); Shape(s') && s'.ready == s.ready
    ensures var s' := BlockOnSend(s, t, to, msg, cap); Shape(s') && s'.ready == s.ready
  {
  }

  /** A state with the same ready queues, after which one task is queued. */
  lemma MovedBehind(s: State, s1: State, t: nat)
    requires Shape(s) && Shape(s1) && s1.ready == s.ready && IsTid(t)
    ensures Behind(s, QueueTask(s1, t), [t])
  {
    QueueBehind(s1, t);
  }

  lemma ReceiveBehind(s: State, t: nat, room: nat)
    requires Holding(s, t)
    ensures s.sending[t] != [] ==> IsTid(s.sending[t][0])
    ensures Behind(s, HandleReceive(s, t, room), Readied(s, t, Receive(room)))
  {
    hide Inv, Behind;
    TaskFacts(s, t);
    if s.sending[t] == [] {
      NoneBehind(s, BlockOnReceive(s, t, room));
    } else {
      MovedBehind(s, TakeSender(s, t, room), t);
    }
  }

  lemma ReplyBehind(s: State, t: nat, to: int, reply: Message)
    requires Holding(s, t)
    ensures Behind(s, HandleReply(s, t, to, reply), Readied(s, t, Reply(to, reply)))
  {
    hide Inv, Behind, Answer;
    InvShape(s);
    AnswerBehind(s, t, -1);
    AnswerBehind(s, t, -3);
    AnswerBehind(s, t, -5);
    if IsTid(to) {
      TaskFacts(s, to);
      var s1 := CompleteSend(s, t, to, reply);
      MovedBehind(s, s1, to);
      QueueBehind(QueueTask(s1, to), t);
      TwoBehind(s, QueueTask(s1, to), QueueTask(QueueTask(s1, to), t), to, t);
    }
  }

  lemma CreateBehind(s: State, t: nat, priority: int, hasCode: bool)
    requires Holding(s, t)
    ensures s.nextId > 0 && Behind(s, HandleCreate(s, t, priority, hasCode), Readied(s, t, Create(priority, hasCode)))
  {
    hide Inv, Behind, MakeId;
    NewIdFacts(s);
    var error := CreateError(s, priority, hasCode);
    if error != 0 {
      AnswerBehind(s, t, error);
    } else {
      var s1 := AddTask(s, priority, t);
      var s2 := QueueTask(s1, s.nextId);
      MovedBehind(s, s1, s.nextId);
      AnswerBehind(s2, t, s.nextId);
      TwoBehind(s, s2, Answer(s2, t, s.nextId), s.nextId, t);
    }
  }

  lemma SpawnBehind(s: State, t: nat, priority: int, hasCode: bool, argument: int)
    requires Holding(s, t)
    ensures s.nextId > 0
    ensures Behind(s, HandleSpawn(s, t, priority, hasCode, argument), Readied(s, t, Spawn(priority, hasCode, argument)))
  {
    hide Inv, Behind, MakeId;
    NewIdFacts(s);
    if CreateError(s, priority, hasCode) != 0 {
      AnswerBehind(s, t, -1);
    } else {
      var s1 := SetRet(AddTask(s, priority, t), s.nextId, argument);
      var s2 := QueueTask(s1, s.nextId);
      MovedBehind(s, s1, s.nextId);
      AnswerBehind(s2, t, s.nextId);
      TwoBehind(s, s2, Answer(s2, t, s.nextId), s.nextId, t);
    }
  }

  lemma AwaitBehind(s: State, t: nat, event: nat)
    requires Holding(s, t)
    ensures event < NUM_EVENTS ==> s.events[event] < MAX_TASKS
    ensures Behind(s, AwaitInterrupt(s, t, event), Readied(s, t, AwaitEvent(event)))
  {
    hide Inv, Behind;
    InvShape(s);
    if event < NUM_EVENTS {
      EventFact(s, event);
      NoneBehind(s, Await(s, t, event));
    } else {
      AnswerBehind(s, t, -1);
    }
  }

  /** The queues after a call: all who were ready keep their order, and those whom the call makes
      ready go behind them. */
  lemma CallQueues(s: State, t: nat, request: Request)
    requires Holding(s, t)
    ensures Linked(s) && Behind(s, HandleRequest(s, t, request), Readied(s, t, request))
  {
    hide Inv, HandleSend, HandleReceive, HandleReply, HandleCreate, HandleSpawn, AwaitInterrupt, Answer, Behind;
    InvLinked(s);
    match request
    case AwaitEvent(event) => AwaitBehind(s, t, event);
    case Send(to, msg, cap) => SendBehind(s, t, to, msg, cap);
    case Receive(room) => ReceiveBehind(s, t, room);
    case Reply(to, msg) => ReplyBehind(s, t, to, msg);
    case Create(priority, hasCode) => CreateBehind(s, t, priority, hasCode);
    case Spawn(priority, hasCode, argument) => SpawnBehind(s, t, priority, hasCode, argument);
    case MyTid => AnswerBehind(s, t, IndexOf(s.tasks[t].id));
    case MyParentTid => AnswerBehind(s, t, IndexOf(s.tasks[t].parent));
    case Pass => AnswerBehind(s, t, s.tasks[t].ret);
    case Unknown => AnswerBehind(s, t, s.tasks[t].ret);
    case Exit => NoneBehind(s, HandleExit(s, t));
    case Halt => NoneBehind(s, HandleHalt(s, t));
  }

  ghost predicate Prefixes(s: State, s': State) {
    && Shape(s) && Shape(s')
    && forall p: nat :: p < MAX_PRIORITY ==> s.ready[p] <= s'.ready[p]
  }

  lemma FirePrefixes(s: State, event: nat, ret: int)
    requires Linked(s) && event < NUM_EVENTS
    ensures Prefixes(s, Fire(s, event, ret))
    ensures forall t: nat :: TaskAt(Fire(s, event, ret), t).id == TaskAt(s, t).id
  {
  }

  lemma InterruptPrefixes(s: State, irq: Irq)
    requires Linked(s)
    ensures Prefixes(s, HandleInterrupt(s, irq))
    ensures forall t: nat :: TaskAt(HandleInterrupt(s, irq), t).id == TaskAt(s, t).id
  {
    hide Fire, Handshake.Handle;
    var signal := if irq.modem then Handshake.Modem(irq.cts, irq.dcts) else Handshake.Transmit;
    var uart1 := Handshake.Handle(s.uart1, signal).0;
    FirePrefixes(s.(uart1 := uart1), UART1_XMIT_EVENT, UART1_DATA);
    FirePrefixes(s, UART1_RECV_EVENT, irq.data);
    FirePrefixes(s, TIMER_EVENT, 0);
    FirePrefixes(s, UART2_RECV_EVENT, irq.data);
    FirePrefixes(s, UART2_XMIT_EVENT, UART2_DATA);
  }

  /** The queues after a turn. The caller leaves the queue that it headed, all others keep their
      order, and those whom the call makes ready go behind; an interrupt takes no one from any
      queue, and the task that it wakes goes behind. */
  lemma TurnQueues(s: State, trap: Trap)
    requires Settled(s) && !s.halted && !Idle(s)
    ensures Linked(s) && IsTid(NextTask(s)) && Settled(Step(s, trap))
    ensures var s', t := Step(s, trap), NextTask(s);
      forall p: nat :: p < MAX_PRIORITY ==>
        && (trap.Syscall? ==>
              s'.ready[p] == (if p == Prio(s, t) && s.ready[p] != [] then s.ready[p][1..] else s.ready[p])
                             + OfPriority(s', Readied(s, t, trap.request), p))
        && (trap.Interrupt? && !s'.halted ==> s.ready[p] <= s'.ready[p])
  {
    hide Inv, HandleRequest, HandleInterrupt, Schedule, OfPriority, CreateError;
    StepInv(s, trap);
    InvLinked(s);
    ScheduleHolding(s);
    ScheduleLooks(s);
    ScheduledQueue(s);
    var t, s1 := NextTask(s), Schedule(s);
    InvLinked(s1);
    match trap
    case Interrupt(irq) =>
      InterruptPrefixes(s1, irq);
      InterruptHolds(s1, t, irq);
      InvLinked(HandleInterrupt(s1, irq));
      var s2 := HandleInterrupt(s1, irq);
      assert TaskAt(s2, t).id == TaskAt(s1, t).id;
      if !s2.halted { FrontPrefixes(s, s2, t); }
    case Syscall(request) =>
      CallQueues(s1, t, request);
      SameReadied(s, s1, t, request);
  }

  lemma ScheduledQueue(s: State)
    requires Inv(s) && !Idle(s)
    ensures Shape(Schedule(s)) && IsTid(NextTask(s))
    ensures var t, q := NextTask(s), Prio(s, NextTask(s));
      s.ready[q] == [t] + s.ready[q][1..] && Schedule(s).ready == s.ready[q := s.ready[q][1..]]
  {
    ScheduleInv(s);
    assert Prio(s, s.ready[TopPriority(s)][0]) == TopPriority(s);
  }

  lemma FrontPrefixes(s: State, s2: State, t: nat)
    requires Shape(s) && Shape(s2) && IsTid(t) && Prio(s2, t) == Prio(s, t)
    requires var q := Prio(s, t); s.ready[q] != [] && s.ready[q][0] == t && s.ready[q][1..] <= s2.ready[q]
    requires forall p: nat :: p < MAX_PRIORITY && p != Prio(s, t) ==> s.ready[p] <= s2.ready[p]
    ensures Prefixes(s, AddToFront(s2, t))
  {
    hide PriorityOf;
    var q := Prio(s, t);
    assert s.ready[q] == [t] + s.ready[q][1..];
  }

  lemma SameReadied(s: State, s1: State, t: nat, request: Request)
    requires Shape(s) && Shape(s1) && IsTid(t) && s1.place == s.place[t := InHand] && s1.sending == s.sending
    requires s1.nextId == s.nextId && s1.stackTop == s.stackTop && At(s, t) == InReady
    ensures Readied(s1, t, request) == Readied(s, t, request)
  {
  }
}
