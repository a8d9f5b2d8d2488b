/** Short runs that reach the corners of the kernel: an overwritten waiter, a sender queued
    at an exited task, and a full stack arena. */
module KernelRuns {
  import opened Tasks
  import opened KernelState
  import opened KernelInvariant

  const CREATE := Syscall(Create(0, true))

  /** All ready tasks have the highest priority, and wait in this order. */
  ghost predicate Waiting(s: State, queue: seq<nat>) {
    && Settled(s) && !s.halted && s.ready[0] == queue
    && (forall p :: 1 <= p < MAX_PRIORITY ==> s.ready[p] == [])
    && (forall i :: 0 <= i < |queue| ==> IsTid(queue[i]))
  }

  ghost predicate Scheduled(s: State, t: nat, rest: seq<nat>) {
    && Holding(s, t) && !s.halted && s.ready[0] == rest && Prio(s, t) == 0
    && (forall p :: 1 <= p < MAX_PRIORITY ==> s.ready[p] == [])
    && (forall i :: 0 <= i < |rest| ==> IsTid(rest[i]))
  }

  lemma FirstIsNext(s: State, queue: seq<nat>)
    requires Waiting(s, queue) && queue != []
    ensures Linked(s) && !Idle(s) && NextTask(s) == queue[0] && Scheduled(Schedule(s), queue[0], queue[1..])
    ensures Schedule(s) == s.(ready := s.ready[0 := queue[1..]], place := s.place[queue[0] := InHand])
  {
    InvLinked(s);
    assert s.ready[0] != [];
    assert TopPriority(s) == 0;
    ScheduleHolding(s);
    assert Prio(s, s.ready[0][0]) == 0;
  }

  lemma RunMore(empty: State, traps: seq<Trap>, trap: Trap)
    requires IsEmpty(empty)
    ensures Run(empty, traps + [trap]) == Step(Run(empty, traps), trap)
  {
    assert (traps + [trap])[..|traps|] == traps;
  }

  lemma BootWaiting(empty: State)
    requires IsEmpty(empty)
    ensures Run(empty, []) == Boot(empty) && Waiting(Boot(empty), [1])
    ensures Boot(empty).nextId == 2 && Boot(empty).events == empty.events
  {
    BootInv(empty);
    IdFields(1, 0, 1);
  }

  // ----- one turn -----

  lemma CreateTurn(s: State, queue: seq<nat>)
    requires Waiting(s, queue) && queue != [] && s.nextId <= STACKS
    ensures Linked(s)
    ensures var s' := Step(s, CREATE);
      && Waiting(s', queue[1..] + [s.nextId, queue[0]])
      && s'.nextId == s.nextId + 1 && s'.events == s.events
  {
    hide Inv, MakeId;
    FirstIsNext(s, queue);
    StepInv(s, CREATE);
    CreateQueues(Schedule(s), queue[0], queue[1..]);
  }

  lemma CreateQueues(s: State, t: nat, rest: seq<nat>)
    requires Scheduled(s, t, rest) && s.nextId <= STACKS
    ensures IsTid(s.nextId)
    ensures var s' := HandleCreate(s, t, 0, true);
      && |s'.ready| == MAX_PRIORITY && s'.ready[0] == rest + [s.nextId, t]
      && (forall p :: 1 <= p < MAX_PRIORITY ==> s'.ready[p] == [])
      && s'.nextId == s.nextId + 1 && s'.events == s.events && s'.halted == s.halted
  {
    hide MakeId, IndexOf;
    IdFields(s.nextId, 0, s.nextId);
    assert CreateError(s, 0, true) == 0;
    assert (rest + [s.nextId]) + [t] == rest + [s.nextId, t];
  }

  lemma AwaitTurn(s: State, queue: seq<nat>, event: nat)
    requires Waiting(s, queue) && queue != [] && event < NUM_EVENTS
    ensures Linked(s)
    ensures var s' := Step(s, Syscall(AwaitEvent(event)));
      && Waiting(s', queue[1..]) && s'.events == s.events[event := queue[0]]
      && (s.events[event] != 0 ==> s.events[event] < MAX_TASKS && s'.place[s.events[event]] == Lost)
  {
    hide Inv;
    FirstIsNext(s, queue);
    StepInv(s, Syscall(AwaitEvent(event)));
    NotTwice(Schedule(s), queue[0], event);
  }

  lemma NotTwice(s: State, t: nat, event: nat)
    requires Holding(s, t) && event < NUM_EVENTS
    ensures Shape(s) && s.events[event] < MAX_TASKS && s.events[event] != t
  {
  }

  lemma SendTurn(s: State, queue: seq<nat>, to: nat, msg: Message, cap: nat)
    requires Waiting(s, queue) && queue != [] && to in queue[1..]
    ensures Linked(s)
    ensures var s' := Step(s, Syscall(Send(to, msg, cap)));
      Waiting(s', queue[1..]) && s'.place[queue[0]] == InSend(to)
  {
    hide Inv;
    FirstIsNext(s, queue);
    StepInv(s, Syscall(Send(to, msg, cap)));
    ReadyIsReady(Schedule(s), to);
  }

  lemma ReadyIsReady(s: State, t: nat)
    requires Inv(s) && t in s.ready[0]
    ensures IsTid(t) && s.tasks[t].status == Ready
  {
  }

  lemma ExitTurn(s: State, queue: seq<nat>)
    requires Waiting(s, queue) && queue != []
    ensures Linked(s)
    ensures var s' := Step(s, Syscall(Exit));
      && Waiting(s', queue[1..]) && s'.place == s.place[queue[0] := Exited]
  {
    hide Inv;
    FirstIsNext(s, queue);
    StepInv(s, Syscall(Exit));
  }

  // ----- the runs -----

  lemma AfterOneCreate(empty: State)
    requires IsEmpty(empty)
    ensures var s := Run(empty, [CREATE]); Waiting(s, [2, 1]) && s.events == empty.events
  {
    hide Waiting, Settled, Linked, Step, Run, IsEmpty;
    BootWaiting(empty);
    RunMore(empty, [], CREATE);
    assert [] + [CREATE] == [CREATE];
    CreateTurn(Run(empty, []), [1]);
    assert [1][1..] + [2, 1] == [2, 1];
  }

  /** Two tasks wait for the same event; the first is thrown out of the slot. */
  lemma WaiterIsLost(empty: State, event: nat)
    requires IsEmpty(empty) && event < NUM_EVENTS
    ensures Run(empty, [CREATE, Syscall(AwaitEvent(event)), Syscall(AwaitEvent(event))]).place[2] == Lost
  {
    hide Waiting, Settled, Linked, Step, Run;
    var await := Syscall(AwaitEvent(event));
    AfterOneCreate(empty);
    RunMore(empty, [CREATE], await);
    AwaitTurn(Run(empty, [CREATE]), [2, 1], event);
    RunMore(empty, [CREATE, await], await);
    assert [CREATE] + [await] == [CREATE, await];
    assert [CREATE, await] + [await] == [CREATE, await, await];
    AwaitTurn(Run(empty, [CREATE, await]), [1], event);
  }

  /** The second task queues itself at the first, which exits without a Receive. */
  lemma SenderIsStranded(empty: State, msg: Message, cap: nat)
    requires IsEmpty(empty)
    ensures var s := Run(empty, [CREATE, Syscall(Send(1, msg, cap)), Syscall(Exit)]);
      s.place[1] == Exited && s.place[2] == InSend(1)
  {
    hide Waiting, Inv, Step, Run, IsEmpty;
    var send, exit := Syscall(Send(1, msg, cap)), Syscall(Exit);
    AfterOneCreate(empty);
    RunMore(empty, [CREATE], send);
    SendTurn(Run(empty, [CREATE]), [2, 1], 1, msg, cap);
    RunMore(empty, [CREATE, send], exit);
    assert [CREATE] + [send] == [CREATE, send];
    assert [CREATE, send] + [exit] == [CREATE, send, exit];
    ExitTurn(Run(empty, [CREATE, send]), [1]);
  }

  function Creates(n: nat): seq<Trap> {
    if n == 0 then [] else Creates(n - 1) + [CREATE]
  }

  lemma {:induction false} CreatesRun(empty: State, n: nat) returns (queue: seq<nat>)
    requires IsEmpty(empty) && n < STACKS
    ensures Waiting(Run(empty, Creates(n)), queue) && queue != [] && Run(empty, Creates(n)).nextId == n + 2
  {
    hide Waiting, Settled, Linked, Step, Run, IsEmpty;
    if n == 0 {
      BootWaiting(empty);
      queue := [1];
    } else {
      var before := CreatesRun(empty, n - 1);
      CreateTurn(Run(empty, Creates(n - 1)), before);
      RunMore(empty, Creates(n - 1), CREATE);
      queue := before[1..] + [n + 1, before[0]];
    }
  }

  /** With the first task, 31 creations make 32 tasks; only the next one fails. */
  lemma ArenaFills(empty: State, n: nat)
    requires IsEmpty(empty) && n < STACKS
    ensures var s := Run(empty, Creates(n));
      s.nextId == n + 2 && CreateError(s, 0, true) == if n == 31 then -3 else 0
  {
    hide Waiting, Linked, Step, Run, IsEmpty, Creates;
    var queue := CreatesRun(empty, n);
    StackTopFact(Run(empty, Creates(n)));
    ArenaHoldsOnly32Stacks(n + 2);
  }

  /** The 32nd creation is answered with -3, and no task is made. */
  lemma CreationRefused(empty: State) returns (t: nat)
    requires IsEmpty(empty)
    ensures var s := Run(empty, Creates(32));
      IsTid(t) && s.place[t] == InReady && s.tasks[t].ret == -3 && s.nextId == 33
  {
    hide Inv, Waiting, Step, Run, IsEmpty;
    var queue := CreatesRun(empty, 31);
    ArenaFills(empty, 31);
    RunMore(empty, Creates(31), CREATE);
    RefusedTurn(Run(empty, Creates(31)), queue);
    t := queue[0];
  }

  lemma RefusedTurn(s: State, queue: seq<nat>)
    requires Waiting(s, queue) && queue != [] && CreateError(s, 0, true) == -3
    ensures Linked(s) && IsTid(queue[0])
    ensures var s', t := Step(s, CREATE), queue[0];
      Shape(s') && s'.place[t] == InReady && s'.tasks[t].ret == -3 && s'.nextId == s.nextId
  {
    hide Inv;
    FirstIsNext(s, queue);
    StepInv(s, CREATE);
  }
}
