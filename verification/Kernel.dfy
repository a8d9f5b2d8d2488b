/** The kernel as it is written: a descriptor table, one intrusive link per task, 32 ready
    queues behind a status word, a send queue per task and an event table, all updated in
    place. Every method is proved to do to the state of KernelState what its namesake does. */
module Kernel {
  import opened Tasks
  import opened Common
  import opened Bits
  import Handshake
  import KS = KernelState
  import KI = KernelInvariant
  import opened QueueLinks

  class Kernel {
    const table: array<Task>
    const next: array<nat>
    const readyQueues: array<TaskQueue>
    const sendQueues: array<TaskQueue>
    const eventTable: array<nat>
    var queueStatus: nat
    var nextId: nat
    var stackTop: nat
    var ctsOn: int
    var xmitRdy: int
    ghost var state: KS.State
    ghost const start: KS.State

    ghost predicate Sizes()
      reads this
    {
      && table.Length == MAX_TASKS && next.Length == MAX_TASKS && sendQueues.Length == MAX_TASKS
      && readyQueues.Length == MAX_PRIORITY && eventTable.Length == KS.NUM_EVENTS
      && next != eventTable && readyQueues != sendQueues
    }

    /** The tables hold exactly the state. */
    ghost predicate Holds()
      reads this, table, next, readyQueues, sendQueues, eventTable
    {
      && Sizes()
      && Lists(next[..], readyQueues[..], sendQueues[..], state)
      && table[..] == state.tasks && eventTable[..] == state.events
      && StatusWord(queueStatus, state.ready)
      && nextId == state.nextId && stackTop == state.stackTop
      && Handshake.Uart1(ctsOn, xmitRdy) == state.uart1
    }

    ghost predicate Valid()
      reads this, table, next, readyQueues, sendQueues, eventTable
    {
      Holds() && KI.Inv(state)
    }

    /** Empty tables: initTaskSystem, initScheduler, initMessagePassing, initInterrupts. */
    constructor ()
      ensures Valid() && fresh(table) && fresh(next) && fresh(readyQueues) && fresh(sendQueues) && fresh(eventTable)
      ensures state == start && KS.IsEmpty(start)
    {
      hide KI.Inv, IsList, StatusWord, Lists;
      table := new Task[MAX_TASKS](_ => EMPTY_TASK);
      next := new nat[MAX_TASKS](_ => 0);
      readyQueues := new TaskQueue[MAX_PRIORITY](_ => EMPTY_QUEUE);
      sendQueues := new TaskQueue[MAX_TASKS](_ => EMPTY_QUEUE);
      eventTable := new nat[KS.NUM_EVENTS](_ => 0);
      queueStatus := 0;
      nextId, stackTop := 1, STACK_HIGH;
      ctsOn, xmitRdy := -1, -1;
      start := KS.State(
        seq(MAX_TASKS, _ => EMPTY_TASK), seq(MAX_PRIORITY, _ => []), seq(MAX_TASKS, _ => []),
        seq(KS.NUM_EVENTS, _ => 0), 1, STACK_HIGH, Handshake.START, false, seq(MAX_TASKS, _ => KS.Absent), []);
      state := start;
      new;
      KI.EmptyInv(state);
      EmptyLists(next[..], readyQueues[..], sendQueues[..], state);
      assert table[..] == state.tasks && eventTable[..] == state.events;
    }

    /** The rest of initKernel: the bootstrap task goes into the first ready queue. */
    method Boot()
      requires Valid() && state == start && KS.IsEmpty(start)
      modifies `queueStatus, `state, `nextId, `stackTop, table, next, readyQueues
      ensures Valid() && state == KS.Boot(start)
    {
      hide KI.Inv, Holds;
      var id := TaskCreate(0, true, 0);
      QueueTask(IndexOf(id));
    }

    // ----- scheduler.h -----

    /** The head of the highest-priority queue that is not empty, or 0. */
    method Schedule() returns (active: nat)
      requires Valid()
      modifies `queueStatus, `state, next, readyQueues
      ensures Valid()
      ensures active == 0 <==> KS.Idle(old(state))
      ensures active == 0 ==> state == old(state)
      ensures active != 0 ==>
        KS.IsTid(active) && active == KS.NextTask(old(state)) && state == KS.Schedule(old(state))
    {
      hide KI.Inv, IsList, StatusWord, Bit, AndNot, Pow2, LeastBitIndex;
      LookUpFindsTopPriority(queueStatus, state);
      if queueStatus == 0 { return 0; }
      KI.ScheduleInv(state);
      ScheduleLists(next[..], readyQueues[..], sendQueues[..], state);
      var index := LeastBitIndex(queueStatus);
      var q := readyQueues[index];
      active := q.head;
      if q.head == q.tail {
        readyQueues[index] := EMPTY_QUEUE;
        ClearStatus(queueStatus, state.ready, index);
        queueStatus := AndNot(queueStatus, Pow2(index));
        assert state.ready[index][1..] == [];
      } else {
        readyQueues[index] := q.(head := next[active]);
        // The source checks once more for an emptied queue here; that cannot happen.
        if readyQueues[index].head == 0 { assert false; }
        KeepStatus(queueStatus, state.ready, index, state.ready[index][1..]);
      }
      next[active] := 0;
      state := KS.Schedule(state);
      assert next[..] == old(next[..])[active := 0];
      assert readyQueues[..] == old(readyQueues[..])[index := QueueWithout(old(next[..]), q)];
    }

    method QueueTask(t: nat)
      requires Valid() && KS.IsTid(t) && state.place[t] == KS.InHand
      modifies `queueStatus, `state, next, readyQueues
      ensures Valid() && state == KS.QueueTask(old(state), t)
    {
      hide KI.Inv, IsList, StatusWord, Or, Pow2;
      KI.QueueTaskInv(state, t);
      QueueTaskLists(next[..], readyQueues[..], sendQueues[..], state, t);
      ListEnds(next[..], readyQueues[KS.Prio(state, t)], state.ready[KS.Prio(state, t)]);
      var priority := PriorityOf(table[t].id);
      var q := readyQueues[priority];
      next[t] := 0;
      if q.tail == 0 {
        readyQueues[priority] := TaskQueue(t, t);
        SetStatus(queueStatus, state.ready, priority, state.ready[priority] + [t]);
        queueStatus := Or(queueStatus, Pow2(priority));
      } else {
        next[q.tail] := t;
        readyQueues[priority] := q.(tail := t);
        KeepStatus(queueStatus, state.ready, priority, state.ready[priority] + [t]);
      }
      state := KS.QueueTask(state, t);
      assert next[..] == LinkBehind(old(next[..]), q, t);
      assert readyQueues[..] == old(readyQueues[..])[priority := QueueBehind(q, t)];
    }

    method AddToFront(t: nat)
      requires Valid() && KS.IsTid(t) && state.place[t] == KS.InHand
      modifies `queueStatus, `state, next, readyQueues
      ensures Valid() && state == KS.AddToFront(old(state), t)
    {
      hide KI.Inv, IsList, StatusWord, Or, Pow2;
      KI.AddToFrontInv(state, t);
      AddToFrontLists(next[..], readyQueues[..], sendQueues[..], state, t);
      ListEnds(next[..], readyQueues[KS.Prio(state, t)], state.ready[KS.Prio(state, t)]);
      var priority := PriorityOf(table[t].id);
      var q := readyQueues[priority];
      if q.head == 0 {
        readyQueues[priority] := TaskQueue(t, t);
        next[t] := 0;
        SetStatus(queueStatus, state.ready, priority, [t] + state.ready[priority]);
        queueStatus := Or(queueStatus, Pow2(priority));
      } else {
        next[t] := q.head;
        readyQueues[priority] := q.(head := t);
        KeepStatus(queueStatus, state.ready, priority, [t] + state.ready[priority]);
      }
      state := KS.AddToFront(state, t);
      assert next[..] == old(next[..])[t := q.head];
      assert readyQueues[..] == old(readyQueues[..])[priority := TaskQueue(t, if q.head == 0 then t else q.tail)];
    }

    // ----- task.c -----

    method SetRet(t: nat, ret: int)
      requires Valid() && KS.IsTid(t)
      modifies `state, table
      ensures Valid() && state == KS.SetRet(old(state), t, ret)
    {
      hide KI.Inv, IsList, StatusWord;
      KI.SetRetInv(state, t, ret);
      table[t] := table[t].(ret := ret);
      state := KS.SetRet(state, t, ret);
    }

    /** Nothing changes but the history. */
    ghost method Note(e: KS.Event)
      requires Valid()
      modifies `state
      ensures Valid() && state == KS.Record(old(state), e)
    {
      hide KI.Inv, IsList, StatusWord;
      KI.RecordInv(state, e);
      state := KS.Record(state, e);
    }

    /** taskSetRet, then queueTask: how every refused or immediately answered call ends. */
    method Answer(t: nat, ret: int)
      requires Valid() && KS.IsTid(t) && state.place[t] == KS.InHand
      modifies `queueStatus, `state, table, next, readyQueues
      ensures Valid() && state == KS.Answer(old(state), t, ret)
    {
      hide KI.Inv, Holds;
      SetRet(t, ret);
      Note(KS.Trapped(t));
      QueueTask(t);
    }

    method TaskCreate(priority: int, hasCode: bool, parent: nat) returns (id: int)
      requires Valid()
      modifies `state, `nextId, `stackTop, table, next
      ensures Valid()
      ensures var error := KS.CreateError(old(state), priority, hasCode);
        if error != 0 then id == error && state == old(state)
        else
          && 0 < old(state).nextId < MAX_TASKS && old(state).stackTop >= STACK_BYTES
          && id == MakeId(old(state).nextId, priority, old(state).nextId) && 0 <= id < 0x8000_0000
          && IndexOf(id) == old(state).nextId && state == KS.AddTask(old(state), priority, parent)
    {
      hide KI.Inv, IsList, StatusWord;
      if priority < 0 || priority >= MAX_PRIORITY || !hasCode { return -1; }
      if nextId >= MAX_TASKS { return -2; }
      if stackTop - STACK_BYTES < STACK_LOW { return -3; }
      KI.AddTaskInv(state, priority, parent);
      KI.NewIdFacts(state);
      IdFields(nextId, priority, nextId);
      ClearLinkLists(next[..], readyQueues[..], sendQueues[..], state, nextId);
      var index := nextId;
      nextId := nextId + 1;
      table[index] := table[index].(id := MakeId(index, priority, index), parent := parent, sp := stackTop - 60);
      next[index] := 0;
      stackTop := stackTop - STACK_BYTES;
      state := KS.AddTask(state, priority, parent);
      assert next[..] == old(next[..])[index := 0];
      id := table[index].id;
    }

    method TaskExit(t: nat)
      requires Valid() && KS.IsTid(t) && state.place[t] == KS.InHand
      modifies `state, table, next
      ensures Valid() && state == KS.HandleExit(old(state), t)
    {
      hide KI.Inv, IsList, StatusWord;
      KI.ExitInv(state, t);
      ClearLinkLists(next[..], readyQueues[..], sendQueues[..], state, t);
      table[t] := table[t].(id := 0, parent := 0, sp := 0, status := Ready, sendBuf := [], recvCap := 0);
      next[t] := 0;
      state := KS.HandleExit(state, t);
      assert next[..] == old(next[..])[t := 0];
    }

    // ----- message_passing.c -----

    /** The receiver waits in Receive: copy the message over and wake it. */
    method SendToWaiting(t: nat, to: nat, msg: Message, cap: nat)
      requires Valid() && KS.IsTid(t) && KS.IsTid(to)
      requires state.place[t] == KS.InHand && state.place[to] == KS.Receiving
      modifies `state, table
      ensures Valid() && state == KS.Deliver(old(state), t, to, msg, cap)
    {
      hide KI.Inv, IsList, StatusWord, IndexOf, Take;
      KI.DeliverInv(state, t, to, msg, cap);
      KI.IndexFact(state, t);
      KI.IndexFact(state, to);
      table[t] := table[t].(recvCap := cap, inbox := []);
      table[to] := table[to].(inbox := Take(msg, table[to].recvCap), sender := IndexOf(table[t].id), ret := |msg|,
                              recvCap := 0, status := Ready);
      table[t] := table[t].(status := ReplyBlock, originalReceiver := IndexOf(table[to].id));
      state := KS.Deliver(state, t, to, msg, cap);
    }

    /** The receiver is busy: go behind its send queue. */
    method SendToBusy(t: nat, to: nat, msg: Message, cap: nat)
      requires Valid() && KS.IsTid(t) && KS.IsTid(to)
      requires state.place[t] == KS.InHand && state.place[to] != KS.Receiving
      modifies `state, table, next, sendQueues
      ensures Valid() && state == KS.BlockOnSend(old(state), t, to, msg, cap)
    {
      hide KI.Inv, IsList, StatusWord;
      KI.BlockOnSendInv(state, t, to, msg, cap);
      BlockOnSendLists(next[..], readyQueues[..], sendQueues[..], state, t, to, msg, cap);
      ListEnds(next[..], sendQueues[to], state.sending[to]);
      table[t] := table[t].(recvCap := cap, inbox := [], status := SendBlock);
      next[t] := 0;
      var q := sendQueues[to];
      if q.tail == 0 {
        sendQueues[to] := TaskQueue(t, t);
      } else {
        next[q.tail] := t;
        sendQueues[to] := q.(tail := t);
      }
      table[t] := table[t].(sendBuf := msg);
      state := KS.BlockOnSend(state, t, to, msg, cap);
      assert next[..] == LinkBehind(old(next[..]), q, t);
      assert sendQueues[..] == old(sendQueues[..])[to := QueueBehind(q, t)];
    }

    method HandleSend(t: nat, to: int, msg: Message, cap: nat)
      requires Valid() && KS.IsTid(t) && state.place[t] == KS.InHand
      modifies `queueStatus, `state, table, next, readyQueues, sendQueues
      ensures Valid() && state == KS.HandleSend(old(state), t, to, msg, cap)
    {
      hide KI.Inv, StatusWord, Lists, KS.Answer, KS.BlockOnSend;
      if !KS.IsTid(to) {
        Answer(t, -1);
        return;
      }
      KI.TaskFacts(state, to);
      if table[to].status == ReceiveBlock {
        SendToWaiting(t, to, msg, cap);
        QueueTask(to);
      } else {
        SendToBusy(t, to, msg, cap);
      }
    }

    method TakeFirstSender(t: nat, room: nat)
      requires Valid() && KS.IsTid(t) && state.place[t] == KS.InHand && state.sending[t] != []
      modifies `state, table, next, sendQueues
      ensures Valid() && KS.IsTid(old(state).sending[t][0]) && state == KS.TakeSender(old(state), t, room)
    {
      hide KI.Inv, IsList, StatusWord, IndexOf, Take;
      KI.TakeSenderInv(state, t, room);
      TakeSenderLists(next[..], readyQueues[..], sendQueues[..], state, t, room);
      KI.IndexFact(state, t);
      var q := sendQueues[t];
      var from := q.head;
      KI.IndexFact(state, from);
      if q.tail == from {
        sendQueues[t] := EMPTY_QUEUE;
      } else {
        sendQueues[t] := q.(head := next[from]);
      }
      next[from] := 0;
      var msg := table[from].sendBuf;
      table[t] := table[t].(inbox := Take(msg, room), sender := IndexOf(table[from].id), ret := |msg|, status := Ready);
      table[from] := table[from].(sendBuf := [], originalReceiver := IndexOf(table[t].id), status := ReplyBlock);
      state := KS.TakeSender(state, t, room);
      assert next[..] == old(next[..])[from := 0];
      assert sendQueues[..] == old(sendQueues[..])[t := QueueWithout(old(next[..]), q)];
    }

    method HandleReceive(t: nat, room: nat)
      requires Valid() && KS.IsTid(t) && state.place[t] == KS.InHand
      modifies `queueStatus, `state, table, next, readyQueues, sendQueues
      ensures old(state).sending[t] != [] ==> KS.IsTid(old(state).sending[t][0])
      ensures Valid() && state == KS.HandleReceive(old(state), t, room)
    {
      hide KI.Inv, IsList, StatusWord;
      KI.IndexFact(state, t);
      var q := sendQueues[IndexOf(table[t].id)];
      ListEnds(next[..], q, state.sending[t]);
      if q.head == 0 {
        KI.BlockOnReceiveInv(state, t, room);
        table[t] := table[t].(inbox := [], recvCap := room, status := ReceiveBlock);
        state := KS.BlockOnReceive(state, t, room);
      } else {
        TakeFirstSender(t, room);
        QueueTask(t);
      }
    }

    method CompleteSend(t: nat, to: nat, reply: Message)
      requires Valid() && KS.IsTid(t) && KS.IsTid(to)
      requires state.place[t] == KS.InHand && state.place[to].Replying?
      modifies `state, table
      ensures Valid() && state == KS.CompleteSend(old(state), t, to, reply)
    {
      hide KI.Inv, IsList, StatusWord;
      KI.CompleteSendInv(state, t, to, reply);
      table[t] := table[t].(ret := if |reply| > table[to].recvCap then -4 else 0, status := Ready);
      table[to] := table[to].(inbox := Take(reply, table[to].recvCap), ret := |reply|, recvCap := 0,
                              originalReceiver := -1, status := Ready);
      state := KS.CompleteSend(state, t, to, reply);
    }

    method HandleReply(t: nat, to: int, reply: Message)
      requires Valid() && KS.IsTid(t) && state.place[t] == KS.InHand
      modifies `queueStatus, `state, table, next, readyQueues
      ensures Valid() && state == KS.HandleReply(old(state), t, to, reply)
    {
      hide KI.Inv, StatusWord, Lists, KS.Answer;
      if !KS.IsTid(to) {
        Answer(t, -1);
        return;
      }
      KI.TaskFacts(state, to);
      KI.IndexFact(state, t);
      if table[to].status != ReplyBlock {
        Answer(t, -3);
      } else if table[to].originalReceiver != IndexOf(table[t].id) {
        Answer(t, -5);
      } else {
        CompleteSend(t, to, reply);
        QueueTask(to);
        QueueTask(t);
      }
    }

    // ----- interrupts.c -----

    method AwaitInterrupt(t: nat, event: nat) returns (ok: bool)
      requires Valid() && KS.IsTid(t) && state.place[t] == KS.InHand
      modifies `state, eventTable
      ensures Valid() && ok == (event < KS.NUM_EVENTS)
      ensures !ok ==> state == old(state)
      ensures ok ==> old(state).events[event] < MAX_TASKS && state == KS.Await(old(state), t, event)
    {
      hide KI.Inv, IsList, StatusWord;
      if event > KS.UART2_XMIT_EVENT { return false; }
      KI.AwaitInv(state, t, event);
      eventTable[event] := t;
      state := KS.Await(state, t, event);
      ok := true;
    }

    /** Give the waiter of an event its value and make it ready. */
    method Fire(event: nat, ret: int)
      requires Valid() && event < KS.NUM_EVENTS
      modifies `queueStatus, `state, table, next, readyQueues, eventTable
      ensures Valid() && old(state).events[event] < MAX_TASKS && state == KS.Fire(old(state), event, ret)
    {
      hide KI.Inv, IsList, StatusWord;
      KI.FireInv(state, event, ret);
      var td := eventTable[event];
      if td != 0 {
        KI.ReleaseInv(state, event, KS.InHand);
        state := KI.Release(state, event, KS.InHand);
        eventTable[event] := 0;
        SetRet(td, ret);
        QueueTask(td);
      }
    }

    /** Returns false where the source prints a message and spins forever. */
    method HandleInterrupt(irq: KS.Irq) returns (known: bool)
      requires Valid()
      modifies this, table, next, readyQueues, eventTable
      ensures KS.Linked(old(state)) && state == KS.HandleInterrupt(old(state), irq)
      ensures Valid() && known == (irq.timer || irq.uart1 || irq.uart2Receive || irq.uart2Transmit || irq.soft)
    {
      hide KI.Inv, Holds, KS.Fire, KS.HandleUart1;
      KI.InvLinked(state);
      known := true;
      if irq.timer {
        Fire(KS.TIMER_EVENT, 0);
      } else if irq.uart1 {
        HandleUart1(irq);
      } else if irq.uart2Receive {
        Fire(KS.UART2_RECV_EVENT, irq.data);
      } else if irq.uart2Transmit {
        Fire(KS.UART2_XMIT_EVENT, KS.UART2_DATA);
      } else if !irq.soft {
        Stop();
        known := false;
      }
    }

    /** A modem or transmit interrupt of UART1: may a byte be sent now? */
    method HandleSignal(signal: Handshake.Signal) returns (grant: bool)
      requires Valid() && !signal.Other?
      modifies `ctsOn, `xmitRdy, `state
      ensures Valid()
      ensures var (uart1, g) := Handshake.Handle(old(state).uart1, signal);
        grant == g && state == old(state).(uart1 := uart1)
    {
      hide KI.Inv, IsList, StatusWord, Lists;
      grant := false;
      match signal {
        case Modem(cts, dcts) =>
          ctsOn := if cts && dcts then 1 else 0;
          if ctsOn != 0 && xmitRdy != 0 {
            ctsOn := 0;
            xmitRdy := 0;
            grant := true;
          }
        case Transmit =>
          if ctsOn == 1 {
            ctsOn := 0;
            xmitRdy := 0;
            grant := true;
          } else {
            xmitRdy := 1;
          }
      }
      KI.FlagsInv(state, Handshake.Uart1(ctsOn, xmitRdy), state.halted);
      KI.InvShape(state);
      assert Lists(next[..], readyQueues[..], sendQueues[..], state.(uart1 := Handshake.Uart1(ctsOn, xmitRdy))) by {
        SameQueues(next[..], readyQueues[..], sendQueues[..], state, state.(uart1 := Handshake.Uart1(ctsOn, xmitRdy)));
      }
      state := state.(uart1 := Handshake.Uart1(ctsOn, xmitRdy));
    }

    method HandleUart1(irq: KS.Irq)
      requires Valid()
      modifies this, table, next, readyQueues, eventTable
      ensures KS.Linked(old(state)) && state == KS.HandleUart1(old(state), irq)
      ensures Valid()
    {
      hide KI.Inv, Holds, Handshake.Handle;
      KI.InvLinked(state);
      if irq.modem || irq.transmit {
        var grant := HandleSignal(if irq.modem then Handshake.Modem(irq.cts, irq.dcts) else Handshake.Transmit);
        if grant { Fire(KS.UART1_XMIT_EVENT, KS.UART1_DATA); }
      } else if irq.receive {
        Fire(KS.UART1_RECV_EVENT, irq.data);
      }
    }

    // ----- kernel.c -----

    /** Returns false when the kernel is asked to halt. */
    method HandleRequest(t: nat, request: KS.Request) returns (goOn: bool)
      requires Valid() && KI.Holding(state, t)
      modifies this, table, next, readyQueues, sendQueues, eventTable
      ensures Valid() && KS.Linked(old(state)) && state == KS.HandleRequest(old(state), t, request)
      ensures goOn == !request.Halt?
    {
      hide KI.Inv, Holds, KS.HandleSend, KS.HandleReceive, KS.HandleReply, KS.HandleCreate, KS.HandleSpawn;
      hide KS.Await, KS.Answer, KS.HandleExit, KS.HandleHalt, IndexOf;
      KI.InvLinked(state);
      match request
      case AwaitEvent(event) =>
        var ok := AwaitInterrupt(t, event);
        if !ok { Answer(t, -1); }
        return true;
      case Send(to, msg, cap) =>
        HandleSend(t, to, msg, cap);
        return true;
      case Receive(room) =>
        HandleReceive(t, room);
        return true;
      case Reply(to, msg) =>
        HandleReply(t, to, msg);
        return true;
      case Create(priority, hasCode) =>
        HandleCreate(t, priority, hasCode);
        return true;
      case Spawn(priority, hasCode, argument) =>
        HandleSpawn(t, priority, hasCode, argument);
        return true;
      case MyTid =>
        AnswerIndex(t, false);
        return true;
      case MyParentTid =>
        AnswerIndex(t, true);
        return true;
      case Exit =>
        TaskExit(t);
        return true;
      case Halt =>
        Halt(t);
        return false;
      case _ =>
        AnswerSame(t);
        return true;
    }

    ghost method Halt(t: nat)
      requires Valid()
      modifies `state
      ensures Valid() && state == KS.HandleHalt(old(state), t)
    {
      hide KI.Inv, IsList, StatusWord;
      KI.HaltInv(state, t);
      state := KS.HandleHalt(state, t);
    }

    method AnswerIndex(t: nat, parent: bool)
      requires Valid() && KS.IsTid(t) && state.place[t] == KS.InHand
      modifies `queueStatus, `state, table, next, readyQueues
      ensures Valid()
      ensures var task := old(state).tasks[t];
        state == KS.Answer(old(state), t, IndexOf(if parent then task.parent else task.id))
    {
      hide KI.Inv, IsList, StatusWord, Lists;
      Answer(t, if parent then IndexOf(table[t].parent) else IndexOf(table[t].id));
    }

    /** The task goes back to its queue with its registers as they were. */
    method AnswerSame(t: nat)
      requires Valid() && KS.IsTid(t) && state.place[t] == KS.InHand
      modifies `queueStatus, `state, next, readyQueues
      ensures Valid() && state == KS.Answer(old(state), t, old(state).tasks[t].ret)
    {
      hide KI.Inv, Holds;
      KI.TaskFacts(state, t);
      Note(KS.Trapped(t));
      QueueTask(t);
      assert old(state).tasks[t := old(state).tasks[t]] == old(state).tasks;
    }

    method HandleCreate(t: nat, priority: int, hasCode: bool)
      requires Valid() && KI.Holding(state, t)
      modifies `queueStatus, `state, `nextId, `stackTop, table, next, readyQueues
      ensures Valid() && old(state).nextId > 0 && state == KS.HandleCreate(old(state), t, priority, hasCode)
    {
      hide KI.Inv, Holds, KS.Answer;
      KI.NewIdFacts(state);
      var id := TaskCreate(priority, hasCode, t);
      if id >= 0 {
        QueueTask(IndexOf(id));
        Answer(t, IndexOf(id));
      } else {
        Answer(t, id);
      }
    }

    method HandleSpawn(t: nat, priority: int, hasCode: bool, argument: int)
      requires Valid() && KI.Holding(state, t)
      modifies `queueStatus, `state, `nextId, `stackTop, table, next, readyQueues
      ensures Valid() && old(state).nextId > 0 && state == KS.HandleSpawn(old(state), t, priority, hasCode, argument)
    {
      hide KI.Inv, Holds, KS.Answer;
      KI.NewIdFacts(state);
      var id := TaskCreate(priority, hasCode, t);
      if id < 0 {
        Answer(t, -1);
      } else {
        SetRet(IndexOf(id), argument);
        QueueTask(IndexOf(id));
        Answer(t, IndexOf(id));
      }
    }

    /** Returns false when the kernel stops. */
    method HandleTrap(t: nat, trap: KS.Trap) returns (goOn: bool)
      requires Valid() && KI.Holding(state, t) && !state.halted
      modifies this, table, next, readyQueues, sendQueues, eventTable
      ensures Valid() && KS.Linked(old(state)) && state == KS.HandleTrap(old(state), t, trap)
      ensures goOn == !state.halted
    {
      hide KI.Inv, Holds;
      KI.InvLinked(state);
      match trap
      case Interrupt(irq) =>
        KI.InterruptHolds(state, t, irq);
        goOn := HandleInterrupt(irq);
        KI.HaltedByInterrupt(old(state), irq);
        if goOn { AddToFront(t); }
      case Syscall(request) =>
        KI.HaltedByRequest(state, t, request);
        goOn := HandleRequest(t, request);
    }

    /** One turn of main's loop. */
    method Turn(trap: KS.Trap) returns (goOn: bool)
      requires Valid() && KI.Settled(state) && !state.halted
      modifies this, table, next, readyQueues, sendQueues, eventTable
      ensures Valid() && KS.Linked(old(state)) && state == KS.Step(old(state), trap)
      ensures goOn == !state.halted
    {
      KI.InvLinked(state);
      if !KS.Idle(state) { KI.ScheduleHolding(state); }
      hide KI.Inv, KI.Holding, Holds, KS.HandleTrap, KS.Idle, KS.Schedule;
      var task := Schedule();
      if task == 0 {
        Stop();
        return false;
      }
      goOn := HandleTrap(task, trap);
    }

    ghost method Stop()
      requires Valid()
      modifies `state
      ensures Valid() && state == old(state).(halted := true)
    {
      hide KI.Inv, IsList, StatusWord;
      KI.FlagsInv(state, state.uart1, true);
      state := state.(halted := true);
    }

    /** main: for every sequence of traps the tables end up holding the state that the
        kernel on values reaches by the same traps. */
    method Serve(traps: seq<KS.Trap>)
      requires Valid() && state == start && KS.IsEmpty(start)
      modifies this, table, next, readyQueues, sendQueues, eventTable
      ensures Valid() && state == KI.Run(start, traps)
    {
      hide KI.Inv, Holds;
      KI.BootInv(start);
      Boot();
      var goOn := true;
      for i := 0 to |traps|
        invariant Valid() && state == KI.Run(start, traps[..i]) && goOn == !state.halted
      {
        assert traps[..i + 1][..i] == traps[..i];
        if goOn { goOn := Turn(traps[i]); }
      }
      assert traps[..|traps|] == traps;
    }
  }
}
