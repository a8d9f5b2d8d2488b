/** The kernel on values: queues are sequences, the running task is a number, and every
    handler of kernel/kernel.c, kernel/message_passing.c, kernel/interrupts.c and
    kernel/task.c is a function on states. Two history fields that no handler reads record
    where each task is and what the tasks could observe. */
module KernelState {
  import opened Tasks
  import opened Handshake

  const NUM_EVENTS: nat := 5
  const TIMER_EVENT: nat := 0
  const UART1_RECV_EVENT: nat := 1
  const UART1_XMIT_EVENT: nat := 2
  const UART2_RECV_EVENT: nat := 3
  const UART2_XMIT_EVENT: nat := 4

  const UART1_DATA := 0x808c_0000
  const UART2_DATA := 0x808d_0000

  /** Where a task is. Lost is the place of a waiter whose event slot was overwritten. */
  datatype Place =
    | Absent | InHand | InReady | InSend(to: nat) | Receiving | Replying(receiver: nat)
    | Awaiting(event: nat) | Lost | Exited

  /** What a task can observe of message passing; Trapped is any other system call. */
  datatype Event =
    | Sent(from: nat, to: nat, msg: Message, cap: nat)
    | Received(receiver: nat, from: nat, cap: nat, data: Message, length: int)
    | Replied(replier: nat, to: nat, reply: Message, data: Message)
    | Trapped(task: nat)

  datatype State = State(
    tasks: seq<Task>,
    ready: seq<seq<nat>>,
    sending: seq<seq<nat>>,
    events: seq<nat>,
    nextId: nat,
    stackTop: nat,
    uart1: Uart1,
    halted: bool,
    place: seq<Place>,
    log: seq<Event>)

  datatype Request =
    | AwaitEvent(event: nat)
    | Send(to: int, msg: Message, cap: nat)
    | Receive(room: nat)
    | Reply(to: int, msg: Message)
    | Create(priority: int, hasCode: bool)
    | Spawn(priority: int, hasCode: bool, argument: int)
    | MyTid | MyParentTid | Pass | Exit | Halt | Unknown

  /** The status bits handleInterrupt reads, in the order it tests them. */
  datatype Irq = Irq(
    timer: bool, uart1: bool, modem: bool, transmit: bool, receive: bool,
    cts: bool, dcts: bool, uart2Receive: bool, uart2Transmit: bool, soft: bool, data: int)

  datatype Trap = Interrupt(irq: Irq) | Syscall(request: Request)

  /** The fixed sizes of the kernel's tables. */
  ghost predicate Shape(s: State) {
    && |s.tasks| == MAX_TASKS && |s.place| == MAX_TASKS && |s.sending| == MAX_TASKS
    && |s.ready| == MAX_PRIORITY && |s.events| == NUM_EVENTS
  }

  predicate IsTid(t: int) {
    0 < t < MAX_TASKS
  }

  function Prio(s: State, t: nat): nat
    requires t < |s.tasks|
  {
    PriorityOf(s.tasks[t].id)
  }

  // ----- single moves -----

  function Record(s: State, e: Event): State {
    s.(log := s.log + [e])
  }

  /** Rewrite a task's descriptor and say where the task now is. */
  function Put(s: State, t: nat, task: Task, place: Place): State
    requires Shape(s) && IsTid(t)
  {
    s.(tasks := s.tasks[t := task], place := s.place[t := place])
  }

  function SetRet(s: State, t: nat, ret: int): State
    requires t < |s.tasks|
  {
    s.(tasks := s.tasks[t := s.tasks[t].(ret := ret)])
  }

  function QueueTask(s: State, t: nat): State
    requires Shape(s) && IsTid(t)
  {
    var p := Prio(s, t);
    s.(ready := s.ready[p := s.ready[p] + [t]], place := s.place[t := InReady])
  }

  function AddToFront(s: State, t: nat): State
    requires Shape(s) && IsTid(t)
  {
    var p := Prio(s, t);
    s.(ready := s.ready[p := [t] + s.ready[p]], place := s.place[t := InReady])
  }

  /** A refused or answered call: the caller goes on with the given value. */
  function Answer(s: State, t: nat, ret: int): State
    requires Shape(s) && IsTid(t)
  {
    QueueTask(Record(SetRet(s, t, ret), Trapped(t)), t)
  }

  // ----- scheduling -----

  predicate Idle(s: State) {
    forall p :: 0 <= p < |s.ready| ==> s.ready[p] == []
  }

  /** The highest-priority queue that is not empty. */
  ghost predicate IsTopPriority(s: State, p: nat) {
    p < |s.ready| && s.ready[p] != [] && forall q: nat :: q < p ==> s.ready[q] == []
  }

  function TopPriorityFrom(s: State, p: nat): (top: nat)
    requires p < |s.ready| && exists q: nat :: p <= q < |s.ready| && s.ready[q] != []
    ensures p <= top < |s.ready| && s.ready[top] != []
    ensures forall q: nat :: p <= q < top ==> s.ready[q] == []
    decreases |s.ready| - p
  {
    if s.ready[p] != [] then p else TopPriorityFrom(s, p + 1)
  }

  function TopPriority(s: State): (p: nat)
    requires Shape(s) && !Idle(s)
    ensures IsTopPriority(s, p)
  {
    TopPriorityFrom(s, 0)
  }

  function NextTask(s: State): nat
    requires Shape(s) && !Idle(s)
  {
    s.ready[TopPriority(s)][0]
  }

  function Schedule(s: State): State
    requires Shape(s) && !Idle(s) && NextTask(s) < MAX_TASKS
  {
    var p := TopPriority(s);
    s.(ready := s.ready[p := s.ready[p][1..]], place := s.place[NextTask(s) := InHand])
  }

  // ----- message passing -----

  function BlockOnSend(s: State, t: nat, to: nat, msg: Message, cap: nat): State
    requires Shape(s) && IsTid(t) && IsTid(to)
  {
    var task := s.tasks[t].(recvCap := cap, inbox := [], status := SendBlock, sendBuf := msg);
    Record(Put(s.(sending := s.sending[to := s.sending[to] + [t]]), t, task, InSend(to)), Sent(t, to, msg, cap))
  }

  /** The receiver is already waiting: hand the message over and wait for the reply. */
  function Deliver(s: State, t: nat, to: nat, msg: Message, cap: nat): State
    requires Shape(s) && IsTid(t) && IsTid(to)
  {
    var room := s.tasks[to].recvCap;
    var data := Take(msg, room);
    var sender := s.tasks[t].(recvCap := cap, inbox := [], status := ReplyBlock, originalReceiver := to);
    var receiver := s.tasks[to].(inbox := data, sender := t, ret := |msg|, recvCap := 0, status := Ready);
    Record(Record(Put(Put(s, t, sender, Replying(to)), to, receiver, InHand),
                  Sent(t, to, msg, cap)),
           Received(to, t, room, data, |msg|))
  }

  function HandleSend(s: State, t: nat, to: int, msg: Message, cap: nat): State
    requires Shape(s) && IsTid(t)
  {
    if !IsTid(to) then Answer(s, t, -1)
    else if s.tasks[to].status == ReceiveBlock then QueueTask(Deliver(s, t, to, msg, cap), to)
    else BlockOnSend(s, t, to, msg, cap)
  }

  function BlockOnReceive(s: State, t: nat, room: nat): State
    requires Shape(s) && IsTid(t)
  {
    var task := s.tasks[t].(recvCap := room, inbox := [], status := ReceiveBlock);
    Record(Put(s, t, task, Receiving), Trapped(t))
  }

  /** The head of the send queue is taken and now waits for its reply. */
  function TakeSender(s: State, t: nat, room: nat): State
    requires Shape(s) && IsTid(t) && s.sending[t] != [] && IsTid(s.sending[t][0])
  {
    var from := s.sending[t][0];
    var msg := s.tasks[from].sendBuf;
    var data := Take(msg, room);
    var receiver := s.tasks[t].(inbox := data, sender := from, ret := |msg|, status := Ready);
    var sender := s.tasks[from].(sendBuf := [], originalReceiver := t, status := ReplyBlock);
    Record(Put(Put(s.(sending := s.sending[t := s.sending[t][1..]]), from, sender, Replying(t)), t, receiver, InHand),
           Received(t, from, room, data, |msg|))
  }

  function HandleReceive(s: State, t: nat, room: nat): State
    requires Shape(s) && IsTid(t) && (s.sending[t] != [] ==> IsTid(s.sending[t][0]))
  {
    if s.sending[t] == [] then BlockOnReceive(s, t, room) else QueueTask(TakeSender(s, t, room), t)
  }

  function CompleteSend(s: State, t: nat, to: nat, reply: Message): State
    requires Shape(s) && IsTid(t) && IsTid(to)
  {
    var data := Take(reply, s.tasks[to].recvCap);
    var replier := s.tasks[t].(ret := if |reply| > s.tasks[to].recvCap then -4 else 0, status := Ready);
    var sender := s.tasks[to].(inbox := data, ret := |reply|, recvCap := 0, originalReceiver := -1, status := Ready);
    Record(Put(Put(s, t, replier, InHand), to, sender, InHand), Replied(t, to, reply, data))
  }

  function HandleReply(s: State, t: nat, to: int, reply: Message): State
    requires Shape(s) && IsTid(t)
  {
    if !IsTid(to) then Answer(s, t, -1)
    else if s.tasks[to].status != ReplyBlock then Answer(s, t, -3)
    else if s.tasks[to].originalReceiver != t then Answer(s, t, -5)
    else QueueTask(QueueTask(CompleteSend(s, t, to, reply), to), t)
  }

  // ----- events and interrupts -----

  function Await(s: State, t: nat, event: nat): State
    requires Shape(s) && IsTid(t) && event < NUM_EVENTS && s.events[event] < MAX_TASKS
  {
    var before := s.events[event];
    var place := if before == 0 then s.place else s.place[before := Lost];
    Record(s.(events := s.events[event := t], place := place[t := Awaiting(event)]), Trapped(t))
  }

  function AwaitInterrupt(s: State, t: nat, event: nat): State
    requires Shape(s) && IsTid(t) && (event < NUM_EVENTS ==> s.events[event] < MAX_TASKS)
  {
    if event >= NUM_EVENTS then Answer(s, t, -1) else Await(s, t, event)
  }

  /** Wake the waiter of an event, if there is one. */
  function Fire(s: State, event: nat, ret: int): State
    requires Shape(s) && event < NUM_EVENTS && s.events[event] < MAX_TASKS
  {
    var t := s.events[event];
    if t == 0 then s
    else QueueTask(SetRet(s.(events := s.events[event := 0]), t, ret), t)
  }

  function HandleUart1(s: State, irq: Irq): State
    requires Shape(s) && forall e :: 0 <= e < NUM_EVENTS ==> s.events[e] < MAX_TASKS
  {
    if irq.modem || irq.transmit then
      var (uart1, grant) := Handle(s.uart1, if irq.modem then Modem(irq.cts, irq.dcts) else Transmit);
      var s1 := s.(uart1 := uart1);
      if grant then Fire(s1, UART1_XMIT_EVENT, UART1_DATA) else s1
    else if irq.receive then Fire(s, UART1_RECV_EVENT, irq.data)
    else s
  }

  /** An interrupt without a known cause leaves the kernel spinning: it never runs again. */
  function HandleInterrupt(s: State, irq: Irq): State
    requires Shape(s) && forall e :: 0 <= e < NUM_EVENTS ==> s.events[e] < MAX_TASKS
  {
    if irq.timer then Fire(s, TIMER_EVENT, 0)
    else if irq.uart1 then HandleUart1(s, irq)
    else if irq.uart2Receive then Fire(s, UART2_RECV_EVENT, irq.data)
    else if irq.uart2Transmit then Fire(s, UART2_XMIT_EVENT, UART2_DATA)
    else if irq.soft then s
    else s.(halted := true)
  }

  // ----- tasks -----

  /** The error taskCreate returns, or 0 when it succeeds. */
  function CreateError(s: State, priority: int, hasCode: bool): int {
    if priority < 0 || priority >= MAX_PRIORITY || !hasCode then -1
    else if s.nextId >= MAX_TASKS then -2
    else if s.stackTop - STACK_BYTES < STACK_LOW then -3
    else 0
  }

  function AddTask(s: State, priority: nat, parent: nat): State
    requires Shape(s) && s.nextId < MAX_TASKS && s.stackTop >= STACK_BYTES
  {
    var t := s.nextId;
    var task := s.tasks[t].(id := MakeId(t, priority, t), parent := parent, sp := s.stackTop - 60);
    s.(tasks := s.tasks[t := task], nextId := t + 1, stackTop := s.stackTop - STACK_BYTES,
       place := s.place[t := InHand])
  }

  function HandleCreate(s: State, t: nat, priority: int, hasCode: bool): State
    requires Shape(s) && IsTid(t) && s.nextId > 0
  {
    var error := CreateError(s, priority, hasCode);
    if error != 0 then Answer(s, t, error)
    else Answer(QueueTask(AddTask(s, priority, t), s.nextId), t, s.nextId)
  }

  function HandleSpawn(s: State, t: nat, priority: int, hasCode: bool, argument: int): State
    requires Shape(s) && IsTid(t) && s.nextId > 0
  {
    if CreateError(s, priority, hasCode) != 0 then Answer(s, t, -1)
    else Answer(QueueTask(SetRet(AddTask(s, priority, t), s.nextId, argument), s.nextId), t, s.nextId)
  }

  function HandleExit(s: State, t: nat): State
    requires Shape(s) && IsTid(t)
  {
    var task := s.tasks[t].(id := 0, parent := 0, sp := 0, status := Ready, sendBuf := [], recvCap := 0);
    Record(Put(s, t, task, Exited), Trapped(t))
  }

  function HandleHalt(s: State, t: nat): State {
    Record(s.(halted := true), Trapped(t))
  }

  // ----- the kernel loop -----

  /** What the handlers need of the tables: every link leads to a task. */
  ghost predicate Linked(s: State) {
    && Shape(s) && s.nextId > 0
    && (forall p, i :: 0 <= p < MAX_PRIORITY && 0 <= i < |s.ready[p]| ==> IsTid(s.ready[p][i]))
    && (forall r, i :: 0 <= r < MAX_TASKS && 0 <= i < |s.sending[r]| ==> IsTid(s.sending[r][i]))
    && (forall e :: 0 <= e < NUM_EVENTS ==> s.events[e] < MAX_TASKS)
  }

  ghost function HandleRequest(s: State, t: nat, request: Request): State
    requires Linked(s) && IsTid(t)
  {
    match request
    case AwaitEvent(event) => AwaitInterrupt(s, t, event)
    case Send(to, msg, cap) => HandleSend(s, t, to, msg, cap)
    case Receive(room) => HandleReceive(s, t, room)
    case Reply(to, msg) => HandleReply(s, t, to, msg)
    case Create(priority, hasCode) => HandleCreate(s, t, priority, hasCode)
    case Spawn(priority, hasCode, argument) => HandleSpawn(s, t, priority, hasCode, argument)
    case MyTid => Answer(s, t, IndexOf(s.tasks[t].id))
    case MyParentTid => Answer(s, t, IndexOf(s.tasks[t].parent))
    case Pass => Answer(s, t, s.tasks[t].ret)
    case Exit => HandleExit(s, t)
    case Halt => HandleHalt(s, t)
    case Unknown => Answer(s, t, s.tasks[t].ret)
  }

  ghost function HandleTrap(s: State, t: nat, trap: Trap): State
    requires Linked(s) && IsTid(t)
  {
    match trap
    case Interrupt(irq) =>
      var s1 := HandleInterrupt(s, irq);
      if s1.halted then s1 else AddToFront(s1, t)
    case Syscall(request) => HandleRequest(s, t, request)
  }

  /** One turn of the kernel loop: schedule a task, let it run until it traps, handle the
      trap. With nothing to schedule, or after a halt, the kernel stands still. */
  ghost function Step(s: State, trap: Trap): State
    requires Linked(s)
  {
    if s.halted then s
    else if Idle(s) then s.(halted := true)
    else HandleTrap(Schedule(s), NextTask(s), trap)
  }

  /** The tables as initTaskSystem, initScheduler, initMessagePassing and initInterrupts
      leave them. */
  ghost predicate IsEmpty(s: State) {
    && Shape(s) && s.nextId == 1 && s.stackTop == STACK_HIGH && s.uart1 == START && !s.halted && s.log == []
    && (forall t :: 0 <= t < MAX_TASKS ==> s.tasks[t] == EMPTY_TASK && s.place[t] == Absent && s.sending[t] == [])
    && (forall p :: 0 <= p < MAX_PRIORITY ==> s.ready[p] == [])
    && (forall e :: 0 <= e < NUM_EVENTS ==> s.events[e] == 0)
  }

  /** initKernel: empty tables, then one ready task of the highest priority. */
  function Boot(empty: State): State
    requires Shape(empty) && empty.nextId == 1 && empty.stackTop == STACK_HIGH
  {
    QueueTask(AddTask(empty, 0, 0), 1)
  }
}
