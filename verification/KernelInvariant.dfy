/** Every task is in exactly one place, and the status fields, the queues, the send queues
    and the event table all agree on which one it is. Preserved by every kernel step. */
module KernelInvariant {
  import opened Common
  import opened Tasks
  import opened Handshake
  import opened KernelState

  predicate Alive(p: Place) {
    p != Absent && p != Exited
  }

  function StatusOf(p: Place): Status {
    match p
    case InSend(_) => SendBlock
    case Receiving => ReceiveBlock
    case Replying(_) => ReplyBlock
    case _ => Ready
  }

  // ----- the parts of the invariant -----

  /** Ids are given out once, in order, and stop when the stack arena is full. */
  ghost predicate IdsOk(s: State)
    requires Shape(s)
  {
    && 1 <= s.nextId <= STACKS + 1
    && s.stackTop == STACK_HIGH - STACK_BYTES * (s.nextId - 1)
    && (forall t :: 0 <= t < MAX_TASKS ==> (s.place[t] == Absent <==> !(0 < t < s.nextId)))
    && (forall t :: 0 <= t < MAX_TASKS && Alive(s.place[t]) ==> IndexOf(s.tasks[t].id) == t)
  }

  /** The status field, where event waiters stay ready, and the remembered receiver. */
  ghost predicate StatusOk(s: State)
    requires Shape(s)
  {
    forall t :: 0 <= t < MAX_TASKS ==>
      && s.tasks[t].status == StatusOf(s.place[t])
      && s.tasks[t].originalReceiver == (if s.place[t].Replying? then s.place[t].receiver else -1)
  }

  /** A task is in ready queue p exactly when its place says ready and its priority is p. */
  ghost predicate ReadyOk(s: State)
    requires Shape(s)
  {
    && (forall p :: 0 <= p < MAX_PRIORITY ==> NoRepeats(s.ready[p]))
    && (forall p, i :: 0 <= p < MAX_PRIORITY && 0 <= i < |s.ready[p]| ==>
          var t := s.ready[p][i]; IsTid(t) && s.place[t] == InReady && Prio(s, t) == p)
    && (forall t :: 0 <= t < MAX_TASKS && s.place[t] == InReady ==> t in s.ready[Prio(s, t)])
  }

  /** A task is in the send queue of r exactly when its place says so; a task that waits in
      Receive has an empty send queue. */
  ghost predicate SendingOk(s: State)
    requires Shape(s)
  {
    && (forall r :: 0 <= r < MAX_TASKS ==> NoRepeats(s.sending[r]))
    && (forall r, i :: 0 <= r < MAX_TASKS && 0 <= i < |s.sending[r]| ==>
          var t := s.sending[r][i]; IsTid(t) && s.place[t] == InSend(r))
    && (forall t :: 0 <= t < MAX_TASKS && s.place[t].InSend? ==>
          s.place[t].to < MAX_TASKS && t in s.sending[s.place[t].to])
    && (forall r :: 0 <= r < MAX_TASKS && s.place[r] == Receiving ==> s.sending[r] == [])
  }

  ghost predicate EventsOk(s: State)
    requires Shape(s)
  {
    && (forall e :: 0 <= e < NUM_EVENTS && s.events[e] != 0 ==>
          IsTid(s.events[e]) && s.place[s.events[e]] == Awaiting(e))
    && (forall t :: 0 <= t < MAX_TASKS && s.place[t].Awaiting? ==>
          s.place[t].event < NUM_EVENTS && s.events[s.place[t].event] == t)
  }

  ghost predicate Inv(s: State) {
    Shape(s) && IdsOk(s) && StatusOk(s) && ReadyOk(s) && SendingOk(s) && EventsOk(s)
  }

  /** Between two turns of the loop no task is in the kernel's hands. */
  ghost predicate Settled(s: State) {
    Inv(s) && (!s.halted ==> forall t :: 0 <= t < MAX_TASKS ==> s.place[t] != InHand)
  }

  lemma InvLinked(s: State)
    requires Inv(s)
    ensures Linked(s)
  {
    forall e | 0 <= e < NUM_EVENTS ensures s.events[e] < MAX_TASKS {
      if s.events[e] != 0 { assert IsTid(s.events[e]); }
    }
  }

  lemma TailNoRepeats(q: seq<nat>)
    requires NoRepeats(q) && q != []
    ensures NoRepeats(q[1..]) && q[0] !in q[1..]
  {
    assert forall i :: 0 <= i < |q[1..]| ==> q[1..][i] == q[i + 1];
  }

  lemma EndNoRepeats(q: seq<nat>, t: nat)
    requires NoRepeats(q) && t !in q
    ensures NoRepeats(q + [t]) && NoRepeats([t] + q)
  {
    assert forall i :: 0 <= i < |q| ==> (q + [t])[i] == q[i] && ([t] + q)[i + 1] == q[i] && q[i] in q;
  }

  // ----- what a part of the invariant does not depend on -----

  ghost predicate SameIds(s: State, s': State) {
    && Shape(s) && Shape(s') && s'.nextId == s.nextId && s'.stackTop == s.stackTop
    && forall t :: 0 <= t < MAX_TASKS ==> s'.tasks[t].id == s.tasks[t].id
  }

  lemma IdsFrame(s: State, s': State)
    requires SameIds(s, s') && IdsOk(s)
    requires forall t :: 0 <= t < MAX_TASKS ==> Alive(s'.place[t]) == Alive(s.place[t])
    requires forall t :: 0 <= t < MAX_TASKS ==> (s'.place[t] == Absent <==> s.place[t] == Absent)
    ensures IdsOk(s')
  {
  }

  lemma ReadyFrame(s: State, s': State)
    requires Shape(s) && Shape(s') && ReadyOk(s) && s'.ready == s.ready
    requires forall t :: 0 <= t < MAX_TASKS && s.place[t] == InReady ==> s'.tasks[t].id == s.tasks[t].id
    requires forall t :: 0 <= t < MAX_TASKS ==> (s'.place[t] == InReady <==> s.place[t] == InReady)
    ensures ReadyOk(s')
  {
  }

  lemma SendingFrame(s: State, s': State)
    requires Shape(s) && Shape(s') && SendingOk(s) && s'.sending == s.sending
    requires forall t :: 0 <= t < MAX_TASKS && (s.place[t].InSend? || s'.place[t].InSend?) ==> s'.place[t] == s.place[t]
    requires forall t :: 0 <= t < MAX_TASKS && s'.place[t] == Receiving ==>
      s.place[t] == Receiving || s.sending[t] == []
    ensures SendingOk(s')
  {
  }

  lemma EventsFrame(s: State, s': State)
    requires Shape(s) && Shape(s') && EventsOk(s) && s'.events == s.events
    requires forall t :: 0 <= t < MAX_TASKS && (s.place[t].Awaiting? || s'.place[t].Awaiting?) ==>
      s'.place[t] == s.place[t]
    ensures EventsOk(s')
  {
  }

  lemma StatusFrame(s: State, s': State)
    requires Shape(s) && Shape(s') && StatusOk(s)
    requires forall t :: 0 <= t < MAX_TASKS ==>
      && s'.tasks[t].status == s.tasks[t].status && s'.tasks[t].originalReceiver == s.tasks[t].originalReceiver
      && StatusOf(s'.place[t]) == StatusOf(s.place[t]) && (s.place[t].Replying? ==> s'.place[t] == s.place[t])
    ensures StatusOk(s')
  {
  }

  lemma PutStatus(s: State, t: nat, task: Task, place: Place)
    requires Shape(s) && StatusOk(s) && IsTid(t) && task.status == StatusOf(place)
    requires task.originalReceiver == if place.Replying? then place.receiver else -1
    ensures StatusOk(Put(s, t, task, place))
  {
  }

  // ----- facts that the parts give -----

  lemma StatusFact(s: State, t: nat)
    requires Shape(s) && StatusOk(s) && IsTid(t)
    ensures s.tasks[t].status == StatusOf(s.place[t])
    ensures s.tasks[t].originalReceiver == if s.place[t].Replying? then s.place[t].receiver else -1
  {
  }

  lemma NoTaskZero(s: State)
    requires Shape(s) && IdsOk(s)
    ensures s.place[0] == Absent
  {
  }

  lemma SenderFact(s: State, t: nat)
    requires Shape(s) && SendingOk(s) && IsTid(t) && s.sending[t] != []
    ensures IsTid(s.sending[t][0]) && s.place[s.sending[t][0]] == InSend(t)
  {
  }

  lemma SlotFact(s: State, event: nat)
    requires Shape(s) && EventsOk(s) && event < NUM_EVENTS && s.events[event] != 0
    ensures IsTid(s.events[event]) && s.place[s.events[event]] == Awaiting(event)
  {
  }

  // ----- moves that keep it -----

  lemma SetRetInv(s: State, t: nat, ret: int)
    requires Inv(s) && IsTid(t)
    ensures Inv(SetRet(s, t, ret))
  {
    hide IdsOk, StatusOk, ReadyOk, SendingOk, EventsOk;
    var s' := SetRet(s, t, ret);
    IdsFrame(s, s');
    StatusFrame(s, s');
    ReadyFrame(s, s');
    SendingFrame(s, s');
    EventsFrame(s, s');
  }

  lemma RecordInv(s: State, e: Event)
    requires Inv(s)
    ensures Inv(Record(s, e))
  {
    hide IdsOk, StatusOk, ReadyOk, SendingOk, EventsOk;
    var s' := Record(s, e);
    IdsFrame(s, s');
    StatusFrame(s, s');
    ReadyFrame(s, s');
    SendingFrame(s, s');
    EventsFrame(s, s');
  }

  lemma QueueTaskReady(s: State, t: nat)
    requires Shape(s) && ReadyOk(s) && IsTid(t) && s.place[t] == InHand
    ensures ReadyOk(QueueTask(s, t))
  {
    var s' := QueueTask(s, t);
    var p := Prio(s, t);
    EndNoRepeats(s.ready[p], t);
    assert s'.ready[p][|s.ready[p]|] == t;
    forall u | 0 <= u < MAX_TASKS && s'.place[u] == InReady
      ensures u in s'.ready[Prio(s', u)]
    {
      if u != t { assert u in s.ready[Prio(s, u)]; }
    }
  }

  lemma QueueTaskInv(s: State, t: nat)
    requires Inv(s) && IsTid(t) && s.place[t] == InHand
    ensures Inv(QueueTask(s, t))
  {
    hide IdsOk, StatusOk, ReadyOk, SendingOk, EventsOk;
    var s' := QueueTask(s, t);
    QueueTaskReady(s, t);
    IdsFrame(s, s');
    StatusFrame(s, s');
    SendingFrame(s, s');
    EventsFrame(s, s');
  }

  lemma AddToFrontReady(s: State, t: nat)
    requires Shape(s) && ReadyOk(s) && IsTid(t) && s.place[t] == InHand
    ensures ReadyOk(AddToFront(s, t))
  {
    var s' := AddToFront(s, t);
    var p := Prio(s, t);
    EndNoRepeats(s.ready[p], t);
    assert s'.ready[p][0] == t;
    forall u | 0 <= u < MAX_TASKS && s'.place[u] == InReady
      ensures u in s'.ready[Prio(s', u)]
    {
      if u != t { assert u in s.ready[Prio(s, u)]; }
    }
  }

  lemma AddToFrontInv(s: State, t: nat)
    requires Inv(s) && IsTid(t) && s.place[t] == InHand
    ensures Inv(AddToFront(s, t))
  {
    hide IdsOk, StatusOk, ReadyOk, SendingOk, EventsOk;
    var s' := AddToFront(s, t);
    AddToFrontReady(s, t);
    IdsFrame(s, s');
    StatusFrame(s, s');
    SendingFrame(s, s');
    EventsFrame(s, s');
  }

  lemma AnswerInv(s: State, t: nat, ret: int)
    requires Inv(s) && IsTid(t) && s.place[t] == InHand
    ensures Inv(Answer(s, t, ret))
  {
    SetRetInv(s, t, ret);
    RecordInv(SetRet(s, t, ret), Trapped(t));
    QueueTaskInv(Record(SetRet(s, t, ret), Trapped(t)), t);
  }

  lemma ScheduleInv(s: State)
    requires Inv(s) && !Idle(s)
    ensures IsTid(NextTask(s)) && s.place[NextTask(s)] == InReady
    ensures Inv(Schedule(s)) && Schedule(s).place == s.place[NextTask(s) := InHand]
  {
    hide IdsOk, StatusOk, ReadyOk, SendingOk, EventsOk;
    NextTaskFact(s);
    var s' := Schedule(s);
    ScheduleReady(s);
    IdsFrame(s, s');
    StatusFrame(s, s');
    SendingFrame(s, s');
    EventsFrame(s, s');
  }

  lemma NextTaskFact(s: State)
    requires Shape(s) && ReadyOk(s) && !Idle(s)
    ensures IsTid(NextTask(s)) && s.place[NextTask(s)] == InReady
  {
    assert IsTid(s.ready[TopPriority(s)][0]);
  }

  lemma ScheduleReady(s: State)
    requires Shape(s) && ReadyOk(s) && !Idle(s) && IsTid(NextTask(s))
    ensures ReadyOk(Schedule(s))
  {
    var p := TopPriority(s);
    var s' := Schedule(s);
    TailNoRepeats(s.ready[p]);
    forall u | 0 <= u < MAX_TASKS && s'.place[u] == InReady
      ensures u in s'.ready[Prio(s', u)]
    {
      var q := s.ready[Prio(s, u)];
      var i :| 0 <= i < |q| && q[i] == u;
      if Prio(s, u) == p { assert s'.ready[p][i - 1] == u; }
    }
  }

  lemma BlockOnSendQueues(s: State, t: nat, to: nat, msg: Message, cap: nat)
    requires Shape(s) && SendingOk(s) && IsTid(t) && IsTid(to) && s.place[t] == InHand && s.place[to] != Receiving
    ensures SendingOk(BlockOnSend(s, t, to, msg, cap))
  {
    var s' := BlockOnSend(s, t, to, msg, cap);
    EndNoRepeats(s.sending[to], t);
    assert s'.sending[to][|s.sending[to]|] == t;
    forall u | 0 <= u < MAX_TASKS && s'.place[u].InSend?
      ensures s'.place[u].to < MAX_TASKS && u in s'.sending[s'.place[u].to]
    {
      if u != t { assert u in s.sending[s.place[u].to]; }
    }
  }

  lemma BlockOnSendStatus(s: State, t: nat, to: nat, msg: Message, cap: nat)
    requires Shape(s) && StatusOk(s) && IsTid(t) && IsTid(to) && s.place[t] == InHand
    ensures StatusOk(BlockOnSend(s, t, to, msg, cap))
  {
  }

  lemma BlockOnSendInv(s: State, t: nat, to: nat, msg: Message, cap: nat)
    requires Inv(s) && IsTid(t) && IsTid(to) && s.place[t] == InHand && s.place[to] != Receiving
    ensures Inv(BlockOnSend(s, t, to, msg, cap))
  {
    hide IdsOk, StatusOk, ReadyOk, SendingOk, EventsOk;
    var s' := BlockOnSend(s, t, to, msg, cap);
    BlockOnSendQueues(s, t, to, msg, cap);
    BlockOnSendStatus(s, t, to, msg, cap);
    IdsFrame(s, s');
    ReadyFrame(s, s');
    EventsFrame(s, s');
  }

  /** A place that no queue and no event slot knows about. */
  predicate Loose(p: Place) {
    p == InHand || p == Receiving || p.Replying?
  }

  /** A task that is in no queue may change its descriptor and go to another such place. */
  lemma MoveInv(s: State, t: nat, task: Task, place: Place)
    requires Inv(s) && IsTid(t) && Loose(s.place[t]) && Loose(place)
    requires task.id == s.tasks[t].id && task.status == StatusOf(place)
    requires task.originalReceiver == if place.Replying? then place.receiver else -1
    requires place == Receiving ==> s.sending[t] == []
    ensures Inv(Put(s, t, task, place))
  {
    hide IdsOk, StatusOk, ReadyOk, SendingOk, EventsOk;
    var s' := Put(s, t, task, place);
    PutStatus(s, t, task, place);
    IdsFrame(s, s');
    ReadyFrame(s, s');
    SendingFrame(s, s');
    EventsFrame(s, s');
  }

  /** What the invariant says of one task. */
  lemma TaskFacts(s: State, t: nat)
    requires Inv(s) && IsTid(t)
    ensures Shape(s) && s.tasks[t].status == StatusOf(s.place[t])
    ensures s.tasks[t].originalReceiver == if s.place[t].Replying? then s.place[t].receiver else -1
    ensures s.sending[t] != [] ==> IsTid(s.sending[t][0]) && s.place[s.sending[t][0]] == InSend(t)
  {
  }

  lemma IndexFact(s: State, t: nat)
    requires Inv(s) && IsTid(t) && Alive(s.place[t])
    ensures IndexOf(s.tasks[t].id) == t
  {
  }

  lemma DeliverInv(s: State, t: nat, to: nat, msg: Message, cap: nat)
    requires Inv(s) && IsTid(t) && IsTid(to) && s.place[t] == InHand && s.place[to] == Receiving
    ensures Inv(Deliver(s, t, to, msg, cap))
  {
    hide Inv;
    TaskFacts(s, t);
    TaskFacts(s, to);
    var s' := Deliver(s, t, to, msg, cap);
    MoveInv(s, t, s'.tasks[t], Replying(to));
    var s1 := Put(s, t, s'.tasks[t], Replying(to));
    MoveInv(s1, to, s'.tasks[to], InHand);
    RecordInv(Put(s1, to, s'.tasks[to], InHand), Sent(t, to, msg, cap));
    RecordInv(Record(Put(s1, to, s'.tasks[to], InHand), Sent(t, to, msg, cap)), s'.log[|s'.log| - 1]);
  }

  lemma BlockOnReceiveInv(s: State, t: nat, room: nat)
    requires Inv(s) && IsTid(t) && s.place[t] == InHand && s.sending[t] == []
    ensures Inv(BlockOnReceive(s, t, room))
  {
    hide Inv;
    TaskFacts(s, t);
    var task := BlockOnReceive(s, t, room).tasks[t];
    MoveInv(s, t, task, Receiving);
    RecordInv(Put(s, t, task, Receiving), Trapped(t));
  }

  /** The head of a send queue leaves it for a reply from the queue's owner. */
  ghost function Dequeue(s: State, t: nat, sender: Task): State
    requires Shape(s) && IsTid(t) && s.sending[t] != [] && IsTid(s.sending[t][0])
  {
    Put(s.(sending := s.sending[t := s.sending[t][1..]]), s.sending[t][0], sender, Replying(t))
  }

  lemma DequeueSending(s: State, t: nat, sender: Task)
    requires Shape(s) && SendingOk(s) && IsTid(t) && s.sending[t] != [] && IsTid(s.sending[t][0])
    ensures SendingOk(Dequeue(s, t, sender))
  {
    var s' := Dequeue(s, t, sender);
    TailNoRepeats(s.sending[t]);
    forall u | 0 <= u < MAX_TASKS && s'.place[u].InSend?
      ensures s'.place[u].to < MAX_TASKS && u in s'.sending[s'.place[u].to]
    {
      var q := s.sending[s.place[u].to];
      var i :| 0 <= i < |q| && q[i] == u;
      if s.place[u].to == t { assert s'.sending[t][i - 1] == u; }
    }
  }

  lemma DequeueStatus(s: State, t: nat, sender: Task)
    requires Shape(s) && StatusOk(s) && IsTid(t) && s.sending[t] != [] && IsTid(s.sending[t][0])
    requires sender.status == ReplyBlock && sender.originalReceiver == t
    ensures StatusOk(Dequeue(s, t, sender))
  {
  }

  lemma DequeueInv(s: State, t: nat, sender: Task)
    requires Inv(s) && IsTid(t) && s.sending[t] != [] && IsTid(s.sending[t][0])
    requires sender.id == s.tasks[s.sending[t][0]].id && sender.status == ReplyBlock && sender.originalReceiver == t
    ensures Inv(Dequeue(s, t, sender))
  {
    hide IdsOk, StatusOk, ReadyOk, SendingOk, EventsOk;
    var s' := Dequeue(s, t, sender);
    SenderFact(s, t);
    DequeueSending(s, t, sender);
    DequeueStatus(s, t, sender);
    IdsFrame(s, s');
    ReadyFrame(s, s');
    EventsFrame(s, s');
  }

  lemma TakeSenderInv(s: State, t: nat, room: nat)
    requires Inv(s) && IsTid(t) && s.place[t] == InHand && s.sending[t] != []
    ensures IsTid(s.sending[t][0]) && s.place[s.sending[t][0]] == InSend(t)
    ensures Inv(TakeSender(s, t, room))
  {
    hide Inv;
    TaskFacts(s, t);
    var from := s.sending[t][0];
    var s' := TakeSender(s, t, room);
    DequeueInv(s, t, s'.tasks[from]);
    var s1 := Dequeue(s, t, s'.tasks[from]);
    MoveInv(s1, t, s'.tasks[t], InHand);
    RecordInv(Put(s1, t, s'.tasks[t], InHand), s'.log[|s'.log| - 1]);
  }

  lemma CompleteSendInv(s: State, t: nat, to: nat, reply: Message)
    requires Inv(s) && IsTid(t) && IsTid(to) && s.place[t] == InHand && s.place[to].Replying?
    ensures Inv(CompleteSend(s, t, to, reply))
  {
    hide Inv;
    TaskFacts(s, t);
    var s' := CompleteSend(s, t, to, reply);
    MoveInv(s, t, s'.tasks[t], InHand);
    var s1 := Put(s, t, s'.tasks[t], InHand);
    MoveInv(s1, to, s'.tasks[to], InHand);
    RecordInv(Put(s1, to, s'.tasks[to], InHand), s'.log[|s'.log| - 1]);
  }

  /** A waiter leaves its slot, for the ready queue or for good. */
  ghost function Release(s: State, event: nat, place: Place): State
    requires Shape(s) && event < NUM_EVENTS && s.events[event] < MAX_TASKS
  {
    s.(events := s.events[event := 0], place := s.place[s.events[event] := place])
  }

  lemma ReleaseEvents(s: State, event: nat, place: Place)
    requires Shape(s) && EventsOk(s) && event < NUM_EVENTS && s.events[event] != 0 && (place == InHand || place == Lost)
    ensures s.events[event] < MAX_TASKS && EventsOk(Release(s, event, place))
  {
  }

  lemma ReleaseInv(s: State, event: nat, place: Place)
    requires Inv(s) && event < NUM_EVENTS && s.events[event] != 0 && (place == InHand || place == Lost)
    ensures IsTid(s.events[event]) && s.place[s.events[event]] == Awaiting(event) && Inv(Release(s, event, place))
  {
    hide IdsOk, StatusOk, ReadyOk, SendingOk, EventsOk;
    SlotFact(s, event);
    var s' := Release(s, event, place);
    ReleaseEvents(s, event, place);
    StatusFrame(s, s');
    IdsFrame(s, s');
    ReadyFrame(s, s');
    SendingFrame(s, s');
  }

  lemma AwaitEvents(s: State, t: nat, event: nat)
    requires Shape(s) && EventsOk(s) && IsTid(t) && s.place[t] == InHand && event < NUM_EVENTS && s.events[event] == 0
    requires s.place[0] == Absent
    ensures EventsOk(Await(s, t, event))
  {
  }

  lemma AwaitFreeInv(s: State, t: nat, event: nat)
    requires Inv(s) && IsTid(t) && s.place[t] == InHand && event < NUM_EVENTS && s.events[event] == 0
    ensures Inv(Await(s, t, event))
  {
    hide IdsOk, StatusOk, ReadyOk, SendingOk, EventsOk;
    var s' := Await(s, t, event);
    NoTaskZero(s);
    AwaitEvents(s, t, event);
    StatusFrame(s, s');
    IdsFrame(s, s');
    ReadyFrame(s, s');
    SendingFrame(s, s');
  }

  lemma InvShape(s: State)
    requires Inv(s)
    ensures Shape(s)
  {
  }

  lemma AwaitInv(s: State, t: nat, event: nat)
    requires Inv(s) && IsTid(t) && s.place[t] == InHand && event < NUM_EVENTS
    ensures s.events[event] < MAX_TASKS && Inv(Await(s, t, event))
  {
    hide Inv;
    InvShape(s);
    if s.events[event] == 0 {
      AwaitFreeInv(s, t, event);
    } else {
      ReleaseInv(s, event, Lost);
      AwaitFreeInv(Release(s, event, Lost), t, event);
      assert Await(s, t, event) == Await(Release(s, event, Lost), t, event);
    }
  }

  lemma FireInv(s: State, event: nat, ret: int)
    requires Inv(s) && event < NUM_EVENTS
    ensures s.events[event] < MAX_TASKS && Inv(Fire(s, event, ret))
  {
    var t := s.events[event];
    if t != 0 {
      hide Inv;
      ReleaseInv(s, event, InHand);
      var s1 := Release(s, event, InHand);
      SetRetInv(s1, t, ret);
      QueueTaskInv(SetRet(s1, t, ret), t);
      assert Fire(s, event, ret).place == QueueTask(SetRet(s1, t, ret), t).place;
    }
  }

  lemma AddTaskIds(s: State, priority: nat, parent: nat)
    requires Shape(s) && IdsOk(s) && priority < MAX_PRIORITY && CreateError(s, priority, true) == 0
    ensures IdsOk(AddTask(s, priority, parent)) && 0 < s.nextId <= STACKS && s.place[s.nextId] == Absent
  {
    IdFields(s.nextId, priority, s.nextId);
  }

  lemma AddTaskInv(s: State, priority: nat, parent: nat)
    requires Inv(s) && priority < MAX_PRIORITY && CreateError(s, priority, true) == 0
    ensures Inv(AddTask(s, priority, parent)) && s.nextId <= STACKS
    ensures Prio(AddTask(s, priority, parent), s.nextId) == priority
  {
    hide IdsOk, StatusOk, ReadyOk, SendingOk, EventsOk;
    AddTaskIds(s, priority, parent);
    var s' := AddTask(s, priority, parent);
    IdFields(s.nextId, priority, s.nextId);
    StatusFrame(s, s');
    ReadyFrame(s, s');
    SendingFrame(s, s');
    EventsFrame(s, s');
  }

  lemma NewIdFacts(s: State)
    requires Inv(s)
    ensures Shape(s) && IsTid(s.nextId) && s.nextId <= STACKS + 1 && s.place[s.nextId] == Absent
  {
  }

  lemma StackTopFact(s: State)
    requires Inv(s)
    ensures s.stackTop == STACK_HIGH - STACK_BYTES * (s.nextId - 1)
  {
  }

  lemma EmptyInv(s: State)
    requires IsEmpty(s)
    ensures Inv(s)
  {
  }

  lemma ExitIds(s: State, t: nat)
    requires Shape(s) && IdsOk(s) && IsTid(t) && Alive(s.place[t])
    ensures IdsOk(HandleExit(s, t))
  {
  }

  lemma ExitStatus(s: State, t: nat)
    requires Shape(s) && StatusOk(s) && IsTid(t) && s.place[t] == InHand
    ensures StatusOk(HandleExit(s, t))
  {
  }

  lemma ExitInv(s: State, t: nat)
    requires Inv(s) && IsTid(t) && s.place[t] == InHand
    ensures Inv(HandleExit(s, t))
  {
    hide IdsOk, StatusOk, ReadyOk, SendingOk, EventsOk;
    var s' := HandleExit(s, t);
    ExitIds(s, t);
    ExitStatus(s, t);
    ReadyFrame(s, s');
    SendingFrame(s, s');
    EventsFrame(s, s');
  }

  // ----- handlers -----

  ghost predicate NoneInHand(s: State)
    requires Shape(s)
  {
    forall u :: 0 <= u < MAX_TASKS ==> s.place[u] != InHand
  }

  /** The running task, and only it, is in the kernel's hands. */
  ghost predicate Holding(s: State, t: nat) {
    Inv(s) && IsTid(t) && forall u :: 0 <= u < MAX_TASKS ==> (s.place[u] == InHand <==> u == t)
  }

  lemma HoldingLinked(s: State, t: nat)
    requires Holding(s, t)
    ensures Linked(s)
  {
    InvLinked(s);
  }

  lemma AnswerSettles(s: State, t: nat, ret: int)
    requires Holding(s, t)
    ensures Inv(Answer(s, t, ret)) && NoneInHand(Answer(s, t, ret))
  {
    AnswerInv(s, t, ret);
  }

  lemma SendSettles(s: State, t: nat, to: int, msg: Message, cap: nat)
    requires Holding(s, t)
    ensures Inv(HandleSend(s, t, to, msg, cap)) && NoneInHand(HandleSend(s, t, to, msg, cap))
  {
    hide Inv;
    InvShape(s);
    if !IsTid(to) {
      AnswerSettles(s, t, -1);
    } else {
      TaskFacts(s, to);
      if s.tasks[to].status == ReceiveBlock {
        DeliverInv(s, t, to, msg, cap);
        QueueTaskInv(Deliver(s, t, to, msg, cap), to);
      } else {
        BlockOnSendInv(s, t, to, msg, cap);
      }
    }
  }

  lemma ReceiveSettles(s: State, t: nat, room: nat)
    requires Holding(s, t)
    ensures s.sending[t] != [] ==> IsTid(s.sending[t][0])
    ensures Inv(HandleReceive(s, t, room)) && NoneInHand(HandleReceive(s, t, room))
  {
    hide Inv;
    TaskFacts(s, t);
    if s.sending[t] == [] {
      BlockOnReceiveInv(s, t, room);
    } else {
      TakeSenderInv(s, t, room);
      QueueTaskInv(TakeSender(s, t, room), t);
    }
  }

  lemma ReplySettles(s: State, t: nat, to: int, reply: Message)
    requires Holding(s, t)
    ensures Inv(HandleReply(s, t, to, reply)) && NoneInHand(HandleReply(s, t, to, reply))
  {
    hide Inv;
    InvShape(s);
    if !IsTid(to) {
      AnswerSettles(s, t, -1);
    } else if s.tasks[to].status != ReplyBlock {
      AnswerSettles(s, t, -3);
    } else if s.tasks[to].originalReceiver != t {
      AnswerSettles(s, t, -5);
    } else {
      TaskFacts(s, to);
      var s1 := CompleteSend(s, t, to, reply);
      CompleteSendInv(s, t, to, reply);
      QueueTaskInv(s1, to);
      QueueTaskInv(QueueTask(s1, to), t);
    }
  }

  lemma AwaitSettles(s: State, t: nat, event: nat)
    requires Holding(s, t)
    ensures event < NUM_EVENTS ==> s.events[event] < MAX_TASKS
    ensures Inv(AwaitInterrupt(s, t, event)) && NoneInHand(AwaitInterrupt(s, t, event))
  {
    if event >= NUM_EVENTS { AnswerSettles(s, t, -1); } else { AwaitInv(s, t, event); }
  }

  /** A fired event takes its waiter to the ready queue and moves nothing else. */
  lemma FirePlaces(s: State, t: nat, event: nat, ret: int)
    requires Holding(s, t) && event < NUM_EVENTS
    ensures s.events[event] < MAX_TASKS && Holding(Fire(s, event, ret), t)
  {
    FireInv(s, event, ret);
    assert s.events[event] != 0 ==> s.place[s.events[event]] == Awaiting(event);
    hide Inv;
  }

  lemma Uart1Holds(s: State, t: nat, irq: Irq)
    requires Holding(s, t)
    ensures Linked(s) && Holding(HandleUart1(s, irq), t)
  {
    hide Inv, Holding, Fire, Handle;
    HoldingLinked(s, t);
    var uart1 := Handle(s.uart1, if irq.modem then Modem(irq.cts, irq.dcts) else Transmit).0;
    Uart1Inv(s, t, uart1);
    FirePlaces(s, t, UART1_RECV_EVENT, irq.data);
    FirePlaces(s.(uart1 := uart1), t, UART1_XMIT_EVENT, UART1_DATA);
  }

  lemma InterruptHolds(s: State, t: nat, irq: Irq)
    requires Holding(s, t)
    ensures Linked(s) && Holding(HandleInterrupt(s, irq), t)
  {
    hide Inv, Holding, Fire, HandleUart1;
    HoldingLinked(s, t);
    FirePlaces(s, t, TIMER_EVENT, 0);
    FirePlaces(s, t, UART2_RECV_EVENT, irq.data);
    FirePlaces(s, t, UART2_XMIT_EVENT, UART2_DATA);
    Uart1Holds(s, t, irq);
    HaltedInv(s, t);
  }

  lemma FlagsInv(s: State, uart1: Uart1, halted: bool)
    requires Inv(s)
    ensures Inv(s.(uart1 := uart1, halted := halted))
  {
    hide IdsOk, StatusOk, ReadyOk, SendingOk, EventsOk;
    var s' := s.(uart1 := uart1, halted := halted);
    IdsFrame(s, s');
    StatusFrame(s, s');
    ReadyFrame(s, s');
    SendingFrame(s, s');
    EventsFrame(s, s');
  }

  lemma HaltedByInterrupt(s: State, irq: Irq)
    requires Linked(s) && !s.halted
    ensures HandleInterrupt(s, irq).halted ==
      !(irq.timer || irq.uart1 || irq.uart2Receive || irq.uart2Transmit || irq.soft)
  {
  }

  lemma HaltedByRequest(s: State, t: nat, request: Request)
    requires Linked(s) && IsTid(t) && !s.halted
    ensures HandleRequest(s, t, request).halted == request.Halt?
  {
  }

  lemma Uart1Inv(s: State, t: nat, uart1: Uart1)
    requires Holding(s, t)
    ensures Holding(s.(uart1 := uart1), t)
  {
  }

  lemma HaltedInv(s: State, t: nat)
    requires Holding(s, t)
    ensures Holding(s.(halted := true), t)
  {
  }

  lemma HaltInv(s: State, t: nat)
    requires Inv(s)
    ensures Inv(HandleHalt(s, t))
  {
    hide Inv;
    FlagsInv(s, s.uart1, true);
    RecordInv(s.(halted := true), Trapped(t));
  }

  lemma CreateSettles(s: State, t: nat, priority: int, hasCode: bool)
    requires Holding(s, t)
    ensures s.nextId > 0 && Inv(HandleCreate(s, t, priority, hasCode))
      && NoneInHand(HandleCreate(s, t, priority, hasCode))
  {
    hide Inv;
    NewIdFacts(s);
    if CreateError(s, priority, hasCode) != 0 {
      AnswerSettles(s, t, CreateError(s, priority, hasCode));
    } else {
      AddTaskInv(s, priority, t);
      QueueTaskInv(AddTask(s, priority, t), s.nextId);
      AnswerSettles(QueueTask(AddTask(s, priority, t), s.nextId), t, s.nextId);
    }
  }

  lemma SpawnSettles(s: State, t: nat, priority: int, hasCode: bool, argument: int)
    requires Holding(s, t)
    ensures s.nextId > 0 && Inv(HandleSpawn(s, t, priority, hasCode, argument))
    ensures NoneInHand(HandleSpawn(s, t, priority, hasCode, argument))
  {
    hide Inv;
    NewIdFacts(s);
    if CreateError(s, priority, hasCode) != 0 {
      AnswerSettles(s, t, -1);
    } else {
      AddTaskInv(s, priority, t);
      SetRetInv(AddTask(s, priority, t), s.nextId, argument);
      var s1 := SetRet(AddTask(s, priority, t), s.nextId, argument);
      QueueTaskInv(s1, s.nextId);
      AnswerSettles(QueueTask(s1, s.nextId), t, s.nextId);
    }
  }

  lemma ExitSettles(s: State, t: nat)
    requires Holding(s, t)
    ensures Inv(HandleExit(s, t)) && NoneInHand(HandleExit(s, t))
  {
    ExitInv(s, t);
  }

  lemma RequestSettles(s: State, t: nat, request: Request)
    requires Holding(s, t)
    ensures Linked(s) && Inv(HandleRequest(s, t, request))
    ensures !HandleRequest(s, t, request).halted ==> NoneInHand(HandleRequest(s, t, request))
  {
    hide Inv, NoneInHand, HandleSend, HandleReceive, HandleReply, HandleCreate, HandleSpawn, HandleExit;
    hide AwaitInterrupt, Answer, IndexOf;
    InvLinked(s);
    HaltInv(s, t);
    match request
    case AwaitEvent(event) => AwaitSettles(s, t, event);
    case Send(to, msg, cap) => SendSettles(s, t, to, msg, cap);
    case Receive(room) => ReceiveSettles(s, t, room);
    case Reply(to, msg) => ReplySettles(s, t, to, msg);
    case Create(priority, hasCode) => CreateSettles(s, t, priority, hasCode);
    case Spawn(priority, hasCode, argument) => SpawnSettles(s, t, priority, hasCode, argument);
    case MyTid => AnswerSettles(s, t, IndexOf(s.tasks[t].id));
    case MyParentTid => AnswerSettles(s, t, IndexOf(s.tasks[t].parent));
    case Pass => AnswerSettles(s, t, s.tasks[t].ret);
    case Exit => ExitSettles(s, t);
    case Halt =>
    case Unknown => AnswerSettles(s, t, s.tasks[t].ret);
  }

  lemma TrapSettles(s: State, t: nat, trap: Trap)
    requires Holding(s, t)
    ensures Linked(s) && Inv(HandleTrap(s, t, trap))
    ensures !HandleTrap(s, t, trap).halted ==> NoneInHand(HandleTrap(s, t, trap))
  {
    hide Inv;
    InvLinked(s);
    match trap
    case Interrupt(irq) =>
      InterruptHolds(s, t, irq);
      var s1 := HandleInterrupt(s, irq);
      if !s1.halted { AddToFrontInv(s1, t); }
    case Syscall(request) => RequestSettles(s, t, request);
  }

  lemma ScheduleHolding(s: State)
    requires Settled(s) && !s.halted && !Idle(s)
    ensures IsTid(NextTask(s)) && Holding(Schedule(s), NextTask(s)) && !Schedule(s).halted
  {
    ScheduleInv(s);
  }

  /** Every turn of the kernel loop keeps the invariant. */
  lemma StepInv(s: State, trap: Trap)
    requires Settled(s)
    ensures Linked(s) && Settled(Step(s, trap))
  {
    hide Inv, HandleTrap, Schedule;
    InvLinked(s);
    FlagsInv(s, s.uart1, true);
    if !s.halted && !Idle(s) {
      ScheduleHolding(s);
      TrapSettles(Schedule(s), NextTask(s), trap);
    }
  }

  /** The kernel starts in it. */
  lemma BootInv(empty: State)
    requires IsEmpty(empty)
    ensures Settled(Boot(empty))
  {
    EmptyInv(empty);
    AddTaskInv(empty, 0, 0);
    QueueTaskInv(AddTask(empty, 0, 0), 1);
  }

  /** The state after any sequence of traps; it is always a good one. */
  ghost function Run(empty: State, traps: seq<Trap>): (s: State)
    requires IsEmpty(empty)
    ensures Linked(s) && Settled(s)
  {
    if traps == [] then
      BootInv(empty);
      InvLinked(Boot(empty));
      Boot(empty)
    else
      var s := Run(empty, traps[..|traps| - 1]);
      var trap := traps[|traps| - 1];
      StepInv(s, trap);
      InvLinked(Step(s, trap));
      Step(s, trap)
  }
}
