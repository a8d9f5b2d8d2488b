/** What the tasks see over a whole run: each send is received at most once, in the order the
    sends were handled, and completes only by a reply of the task that received it. The
    rules are stated on the log alone; the proof ties the log to the kernel state. */
module KernelHistory {
  import opened Common
  import opened Tasks
  import opened Handshake
  import opened KernelState
  import opened KernelInvariant

  // ----- the rules -----

  /** One task's view of its own sends. Completed(n) lasts until its next system call. */
  datatype Phase =
    | Free
    | Queued(to: nat, msg: Message, cap: nat)
    | Taken(receiver: nat, cap: nat)
    | Completed(ret: int)
    | Broken

  /** A task that makes a system call must not be inside a send. */
  function Calls(phase: Phase): Phase {
    if phase.Free? || phase.Completed? then Free else Broken
  }

  /** The protocol of task p: Sent, then Received by the addressee with the first
      min(length, room) bytes, then Replied by that same task with the first
      min(length, room) bytes of its reply; everything else breaks it. */
  function Next(phase: Phase, e: Event, p: nat): Phase {
    match e
    case Sent(from, to, msg, cap) =>
      if from == p && Calls(phase).Free? then Queued(to, msg, cap)
      else if from == p then Broken
      else phase
    case Received(receiver, from, cap, data, length) =>
      if from == p then
        if phase.Queued? && phase.to == receiver && data == Take(phase.msg, cap) && length == |phase.msg|
        then Taken(receiver, phase.cap) else Broken
      else if receiver == p then Calls(phase)
      else phase
    case Replied(replier, to, reply, data) =>
      if to == p then
        if phase.Taken? && phase.receiver == replier && data == Take(reply, phase.cap)
        then Completed(|reply|) else Broken
      else if replier == p then Calls(phase)
      else phase
    case Trapped(task) => if task == p then Calls(phase) else phase
  }

  function PhaseOf(log: seq<Event>, p: nat): Phase {
    if log == [] then Free else Next(PhaseOf(log[..|log| - 1], p), log[|log| - 1], p)
  }

  /** The sends addressed to r, in the order they were handled. */
  function SentTo(log: seq<Event>, r: nat): seq<(nat, Message)> {
    if log == [] then []
    else
      var e := log[|log| - 1];
      SentTo(log[..|log| - 1], r) + if e.Sent? && e.to == r then [(e.from, e.msg)] else []
  }

  /** What r received, in order. */
  function ReceivedBy(log: seq<Event>, r: nat): seq<Event> {
    if log == [] then []
    else
      var e := log[|log| - 1];
      ReceivedBy(log[..|log| - 1], r) + if e.Received? && e.receiver == r then [e] else []
  }

  /** A step of task p: a call, or being handed a message or a reply. */
  predicate Concerns(e: Event, p: nat) {
    match e
    case Sent(from, _, _, _) => from == p
    case Received(receiver, _, _, _, _) => receiver == p
    case Replied(replier, to, _, _) => replier == p || to == p
    case Trapped(task) => task == p
  }

  /** The latest event that concerns p. */
  function Latest(log: seq<Event>, p: nat): Option<Event> {
    if log == [] then None
    else if Concerns(log[|log| - 1], p) then Some(log[|log| - 1])
    else Latest(log[..|log| - 1], p)
  }

  ghost predicate Matches(sent: (nat, Message), got: Event) {
    && got.Received? && got.from == sent.0
    && got.data == Take(sent.1, got.cap) && got.length == |sent.1|
  }

  // ----- how the log and the state agree -----

  ghost predicate PhaseOk(s: State, p: nat)
    requires Shape(s) && p < MAX_TASKS
  {
    match PhaseOf(s.log, p)
    case Free => !s.place[p].InSend? && !s.place[p].Replying?
    case Queued(to, msg, cap) => s.place[p] == InSend(to) && s.tasks[p].sendBuf == msg && s.tasks[p].recvCap == cap
    case Taken(receiver, cap) => s.place[p] == Replying(receiver) && s.tasks[p].recvCap == cap
    case Completed(ret) => (s.place[p] == InReady || s.place[p] == InHand) && s.tasks[p].ret == ret
    case Broken => false
  }

  /** The sends to r are those it received, followed by those in its send queue. */
  ghost predicate FifoOk(s: State, r: nat)
    requires Linked(s) && r < MAX_TASKS
  {
    var sent, got, q := SentTo(s.log, r), ReceivedBy(s.log, r), s.sending[r];
    && |sent| == |got| + |q|
    && (forall k :: 0 <= k < |got| ==> Matches(sent[k], got[k]))
    && (forall i :: 0 <= i < |q| ==> sent[|got| + i] == (q[i], s.tasks[q[i]].sendBuf))
  }

  /** A task that was handed a message or a reply has it in its buffer, with the sender's index
      and the full length as its return value, until its next call. */
  ghost predicate HandOk(s: State, p: nat)
    requires Shape(s) && p < MAX_TASKS
  {
    match Latest(s.log, p)
    case Some(Received(_, from, _, data, length)) =>
      (s.place[p] == InReady || s.place[p] == InHand)
      && s.tasks[p].sender == from && s.tasks[p].inbox == data && s.tasks[p].ret == length
    case Some(Replied(_, to, reply, data)) =>
      to == p ==>
        (s.place[p] == InReady || s.place[p] == InHand) && s.tasks[p].inbox == data && s.tasks[p].ret == |reply|
    case _ => true
  }

  ghost predicate History(s: State) {
    && Linked(s)
    && (forall p :: 0 <= p < MAX_TASKS ==> HandOk(s, p))
    && (forall p :: 0 <= p < MAX_TASKS ==> PhaseOk(s, p))
    && (forall r :: 0 <= r < MAX_TASKS ==> FifoOk(s, r))
  }

  lemma LogStep(log: seq<Event>, e: Event, p: nat)
    ensures PhaseOf(log + [e], p) == Next(PhaseOf(log, p), e, p)
    ensures SentTo(log + [e], p) == SentTo(log, p) + if e.Sent? && e.to == p then [(e.from, e.msg)] else []
    ensures ReceivedBy(log + [e], p) == ReceivedBy(log, p) + if e.Received? && e.receiver == p then [e] else []
    ensures Latest(log + [e], p) == if Concerns(e, p) then Some(e) else Latest(log, p)
  {
    assert (log + [e])[..|log|] == log;
  }

  // ----- moves -----

  /** A state that looks the same to message passing. */
  ghost predicate SameView(s: State, s': State)
    requires Shape(s) && Shape(s')
  {
    && s'.log == s.log && s'.sending == s.sending
    && forall p :: 0 <= p < MAX_TASKS ==>
         && s'.tasks[p].sendBuf == s.tasks[p].sendBuf && s'.tasks[p].recvCap == s.tasks[p].recvCap
         && ((s.place[p].InSend? || s.place[p].Replying? || s'.place[p].InSend? || s'.place[p].Replying?) ==>
           s'.place[p] == s.place[p])
         && ((s.place[p] == InReady || s.place[p] == InHand) ==>
               (s'.place[p] == InReady || s'.place[p] == InHand) && s'.tasks[p].ret == s.tasks[p].ret
               && s'.tasks[p].inbox == s.tasks[p].inbox && s'.tasks[p].sender == s.tasks[p].sender)
  }

  lemma ViewHistory(s: State, s': State)
    requires History(s) && Linked(s') && SameView(s, s')
    ensures History(s')
  {
    forall r | 0 <= r < MAX_TASKS ensures FifoOk(s', r) { assert FifoOk(s, r); }
    forall p | 0 <= p < MAX_TASKS ensures PhaseOk(s', p) { assert PhaseOk(s, p); }
    forall p | 0 <= p < MAX_TASKS ensures HandOk(s', p) { assert HandOk(s, p); }
  }

  /** A call that leaves the caller outside any send: what it returns does not matter. */
  lemma TrappedHistory(s: State, s': State, t: nat)
    requires History(s) && Linked(s') && IsTid(t) && (s.place[t] == InHand)
    requires !s'.place[t].InSend? && !s'.place[t].Replying?
    requires s'.log == s.log + [Trapped(t)] && s'.sending == s.sending
    requires forall p :: 0 <= p < MAX_TASKS && p != t ==> s'.tasks[p] == s.tasks[p] && s'.place[p] == s.place[p]
    requires forall r, i :: 0 <= r < MAX_TASKS && 0 <= i < |s.sending[r]| ==> s.sending[r][i] != t
    ensures History(s')
  {
    forall r | 0 <= r < MAX_TASKS ensures FifoOk(s', r) {
      assert FifoOk(s, r);
      LogStep(s.log, Trapped(t), r);
    }
    forall p | 0 <= p < MAX_TASKS ensures PhaseOk(s', p) {
      assert PhaseOk(s, p);
      LogStep(s.log, Trapped(t), p);
    }
    forall p | 0 <= p < MAX_TASKS ensures HandOk(s', p) {
      assert HandOk(s, p);
      LogStep(s.log, Trapped(t), p);
    }
  }

  lemma NotQueued(s: State, t: nat)
    requires Inv(s) && IsTid(t) && !s.place[t].InSend?
    ensures Linked(s) && forall r, i :: 0 <= r < MAX_TASKS && 0 <= i < |s.sending[r]| ==> s.sending[r][i] != t
  {
    InvLinked(s);
  }

  lemma QueueTaskHistory(s: State, t: nat)
    requires History(s) && IsTid(t) && s.place[t] == InHand && Linked(QueueTask(s, t))
    ensures History(QueueTask(s, t))
  {
    ViewHistory(s, QueueTask(s, t));
  }

  lemma AnswerHistory(s: State, t: nat, ret: int)
    requires Holding(s, t) && History(s)
    ensures History(Answer(s, t, ret))
  {
    NotQueued(s, t);
    AnswerInv(s, t, ret);
    InvLinked(Answer(s, t, ret));
    hide Inv;
    TrappedHistory(s, Answer(s, t, ret), t);
  }

  lemma BlockOnReceiveHistory(s: State, t: nat, room: nat)
    requires Holding(s, t) && History(s) && s.sending[t] == []
    ensures History(BlockOnReceive(s, t, room))
  {
    NotQueued(s, t);
    BlockOnReceiveInv(s, t, room);
    InvLinked(BlockOnReceive(s, t, room));
    hide Inv;
    TrappedHistory(s, BlockOnReceive(s, t, room), t);
  }

  lemma ExitHistory(s: State, t: nat)
    requires Holding(s, t) && History(s)
    ensures History(HandleExit(s, t))
  {
    NotQueued(s, t);
    ExitInv(s, t);
    InvLinked(HandleExit(s, t));
    hide Inv;
    TrappedHistory(s, HandleExit(s, t), t);
  }

  lemma HaltHistory(s: State, t: nat)
    requires Holding(s, t) && History(s)
    ensures History(HandleHalt(s, t))
  {
    NotQueued(s, t);
    HaltInv(s, t);
    InvLinked(HandleHalt(s, t));
    hide Inv;
    TrappedHistory(s, HandleHalt(s, t), t);
  }

  /** A waiter that is thrown out of its slot, or taken from it, was in no send. */
  lemma ReleaseHistory(s: State, event: nat, place: Place)
    requires Inv(s) && History(s) && event < NUM_EVENTS && s.events[event] != 0 && (place == InHand || place == Lost)
    ensures History(Release(s, event, place))
  {
    ReleaseInv(s, event, place);
    InvLinked(Release(s, event, place));
    ViewHistory(s, Release(s, event, place));
  }

  lemma AwaitHistory(s: State, t: nat, event: nat)
    requires Holding(s, t) && History(s) && event < NUM_EVENTS
    ensures History(Await(s, t, event))
  {
    AwaitInv(s, t, event);
    InvLinked(Await(s, t, event));
    NotQueued(s, t);
    if s.events[event] == 0 {
      hide Inv;
      TrappedHistory(s, Await(s, t, event), t);
    } else {
      ReleaseHistory(s, event, Lost);
      assert s.events[event] != t;
      hide Inv;
      TrappedHistory(Release(s, event, Lost), Await(s, t, event), t);
    }
  }

  lemma FirePhase(s: State, event: nat, ret: int, p: nat)
    requires Shape(s) && event < NUM_EVENTS && p < MAX_TASKS && PhaseOk(s, p)
    requires s.events[event] != 0 ==> IsTid(s.events[event]) && s.place[s.events[event]].Awaiting?
    ensures s.events[event] < MAX_TASKS && PhaseOk(Fire(s, event, ret), p)
  {
  }

  lemma FireHand(s: State, event: nat, ret: int, p: nat)
    requires Shape(s) && event < NUM_EVENTS && p < MAX_TASKS && HandOk(s, p)
    requires s.events[event] != 0 ==> IsTid(s.events[event]) && s.place[s.events[event]].Awaiting?
    ensures s.events[event] < MAX_TASKS && HandOk(Fire(s, event, ret), p)
  {
  }

  lemma FireFifo(s: State, event: nat, ret: int, r: nat)
    requires Linked(s) && event < NUM_EVENTS && r < MAX_TASKS && FifoOk(s, r)
    requires Linked(Fire(s, event, ret))
    ensures FifoOk(Fire(s, event, ret), r)
  {
  }

  lemma FireHistory(s: State, event: nat, ret: int)
    requires Inv(s) && History(s) && event < NUM_EVENTS
    ensures History(Fire(s, event, ret))
  {
    FireInv(s, event, ret);
    InvLinked(Fire(s, event, ret));
    assert s.events[event] != 0 ==> IsTid(s.events[event]) && s.place[s.events[event]].Awaiting?;
    hide Inv, PhaseOk, FifoOk, HandOk, Fire;
    forall p | 0 <= p < MAX_TASKS ensures PhaseOk(Fire(s, event, ret), p) { FirePhase(s, event, ret, p); }
    forall p | 0 <= p < MAX_TASKS ensures HandOk(Fire(s, event, ret), p) { FireHand(s, event, ret, p); }
    forall r | 0 <= r < MAX_TASKS ensures FifoOk(Fire(s, event, ret), r) { FireFifo(s, event, ret, r); }
  }

  lemma BlockOnSendPhase(s: State, t: nat, to: nat, msg: Message, cap: nat, p: nat)
    requires Shape(s) && IsTid(t) && IsTid(to) && p < MAX_TASKS && PhaseOk(s, p) && s.place[t] == InHand
    ensures PhaseOk(BlockOnSend(s, t, to, msg, cap), p)
  {
    LogStep(s.log, Sent(t, to, msg, cap), p);
  }

  lemma BlockOnSendHand(s: State, t: nat, to: nat, msg: Message, cap: nat, p: nat)
    requires Shape(s) && IsTid(t) && IsTid(to) && p < MAX_TASKS && HandOk(s, p)
    ensures HandOk(BlockOnSend(s, t, to, msg, cap), p)
  {
    hide PhaseOf, SentTo, ReceivedBy;
    LogStep(s.log, Sent(t, to, msg, cap), p);
  }

  lemma BlockOnSendFifo(s: State, t: nat, to: nat, msg: Message, cap: nat, r: nat)
    requires Linked(s) && IsTid(t) && IsTid(to) && r < MAX_TASKS && FifoOk(s, r)
    requires t !in s.sending[r] && Linked(BlockOnSend(s, t, to, msg, cap))
    ensures FifoOk(BlockOnSend(s, t, to, msg, cap), r)
  {
    LogStep(s.log, Sent(t, to, msg, cap), r);
  }

  lemma BlockOnSendHistory(s: State, t: nat, to: nat, msg: Message, cap: nat)
    requires Holding(s, t) && History(s) && IsTid(to) && s.place[to] != Receiving
    ensures History(BlockOnSend(s, t, to, msg, cap))
  {
    NotQueued(s, t);
    BlockOnSendInv(s, t, to, msg, cap);
    var s' := BlockOnSend(s, t, to, msg, cap);
    InvLinked(s');
    hide Inv, PhaseOk, FifoOk, HandOk, BlockOnSend;
    forall p | 0 <= p < MAX_TASKS ensures HandOk(s', p) { BlockOnSendHand(s, t, to, msg, cap, p); }
    forall p | 0 <= p < MAX_TASKS ensures PhaseOk(s', p) { BlockOnSendPhase(s, t, to, msg, cap, p); }
    forall r | 0 <= r < MAX_TASKS ensures FifoOk(s', r) { BlockOnSendFifo(s, t, to, msg, cap, r); }
  }

  lemma DeliverPhase(s: State, t: nat, to: nat, msg: Message, cap: nat, p: nat)
    requires Shape(s) && IsTid(t) && IsTid(to) && p < MAX_TASKS && PhaseOk(s, p)
    requires s.place[t] == InHand && s.place[to] == Receiving
    ensures PhaseOk(Deliver(s, t, to, msg, cap), p)
  {
    hide PhaseOf, SentTo, ReceivedBy, Take;
    var e1, e2 := Sent(t, to, msg, cap), Received(to, t, s.tasks[to].recvCap, Take(msg, s.tasks[to].recvCap), |msg|);
    LogStep(s.log, e1, p);
    LogStep(s.log + [e1], e2, p);
  }

  lemma DeliverHand(s: State, t: nat, to: nat, msg: Message, cap: nat, p: nat)
    requires Shape(s) && IsTid(t) && IsTid(to) && p < MAX_TASKS && HandOk(s, p)
    requires s.place[t] == InHand && s.place[to] == Receiving
    ensures HandOk(Deliver(s, t, to, msg, cap), p)
  {
    hide PhaseOf, SentTo, ReceivedBy, Take;
    var e1, e2 := Sent(t, to, msg, cap), Received(to, t, s.tasks[to].recvCap, Take(msg, s.tasks[to].recvCap), |msg|);
    LogStep(s.log, e1, p);
    LogStep(s.log + [e1], e2, p);
  }

  lemma DeliverFifo(s: State, t: nat, to: nat, msg: Message, cap: nat, r: nat)
    requires Linked(s) && IsTid(t) && IsTid(to) && r < MAX_TASKS && FifoOk(s, r) && s.sending[to] == []
    requires t !in s.sending[r] && to !in s.sending[r] && Linked(Deliver(s, t, to, msg, cap))
    ensures FifoOk(Deliver(s, t, to, msg, cap), r)
  {
    var e1, e2 := Sent(t, to, msg, cap), Received(to, t, s.tasks[to].recvCap, Take(msg, s.tasks[to].recvCap), |msg|);
    LogStep(s.log, e1, r);
    LogStep(s.log + [e1], e2, r);
  }

  lemma DeliverHistory(s: State, t: nat, to: nat, msg: Message, cap: nat)
    requires Holding(s, t) && History(s) && IsTid(to) && s.place[to] == Receiving
    ensures History(Deliver(s, t, to, msg, cap))
  {
    NotQueued(s, t);
    NotQueued(s, to);
    assert s.sending[to] == [];
    DeliverInv(s, t, to, msg, cap);
    var s' := Deliver(s, t, to, msg, cap);
    InvLinked(s');
    hide Inv, PhaseOk, FifoOk, HandOk, Deliver;
    forall p | 0 <= p < MAX_TASKS ensures HandOk(s', p) { DeliverHand(s, t, to, msg, cap, p); }
    forall p | 0 <= p < MAX_TASKS ensures PhaseOk(s', p) { DeliverPhase(s, t, to, msg, cap, p); }
    forall r | 0 <= r < MAX_TASKS ensures FifoOk(s', r) { DeliverFifo(s, t, to, msg, cap, r); }
  }

  lemma TakeSenderPhase(s: State, t: nat, room: nat, p: nat)
    requires Shape(s) && IsTid(t) && p < MAX_TASKS && s.place[t] == InHand && s.sending[t] != []
      && IsTid(s.sending[t][0])
    requires s.place[s.sending[t][0]] == InSend(t) && PhaseOk(s, p) && PhaseOk(s, s.sending[t][0])
    ensures PhaseOk(TakeSender(s, t, room), p)
  {
    hide PhaseOf, SentTo, ReceivedBy;
    var from := s.sending[t][0];
    var msg := s.tasks[from].sendBuf;
    LogStep(s.log, Received(t, from, room, Take(msg, room), |msg|), p);
  }

  lemma TakeSenderHand(s: State, t: nat, room: nat, p: nat)
    requires Shape(s) && IsTid(t) && p < MAX_TASKS && s.place[t] == InHand && s.sending[t] != []
      && IsTid(s.sending[t][0])
    requires s.place[s.sending[t][0]] == InSend(t) && HandOk(s, p)
    ensures HandOk(TakeSender(s, t, room), p)
  {
    hide PhaseOf, SentTo, ReceivedBy, Take;
    var from := s.sending[t][0];
    var msg := s.tasks[from].sendBuf;
    LogStep(s.log, Received(t, from, room, Take(msg, room), |msg|), p);
  }

  lemma TakeSenderFifo(s: State, t: nat, room: nat, r: nat)
    requires Linked(s) && IsTid(t) && r < MAX_TASKS && FifoOk(s, r) && s.sending[t] != []
    requires t !in s.sending[r] && (r != t ==> s.sending[t][0] !in s.sending[r]) && NoRepeats(s.sending[r])
    requires Linked(TakeSender(s, t, room))
    ensures FifoOk(TakeSender(s, t, room), r)
  {
    hide PhaseOf, SentTo, ReceivedBy;
    var from := s.sending[t][0];
    var msg := s.tasks[from].sendBuf;
    LogStep(s.log, Received(t, from, room, Take(msg, room), |msg|), r);
  }

  lemma TakeSenderHistory(s: State, t: nat, room: nat)
    requires Holding(s, t) && History(s) && s.sending[t] != []
    ensures IsTid(s.sending[t][0]) && History(TakeSender(s, t, room))
  {
    NotQueued(s, t);
    TakeSenderInv(s, t, room);
    var from := s.sending[t][0];
    var s' := TakeSender(s, t, room);
    InvLinked(s');
    assert forall r :: 0 <= r < MAX_TASKS ==> NoRepeats(s.sending[r]);
    assert forall r :: 0 <= r < MAX_TASKS && r != t ==> from !in s.sending[r];
    assert s.place[from] == InSend(t);
    hide Inv, PhaseOk, FifoOk, HandOk, TakeSender;
    forall p | 0 <= p < MAX_TASKS ensures HandOk(s', p) { TakeSenderHand(s, t, room, p); }
    forall p | 0 <= p < MAX_TASKS ensures PhaseOk(s', p) { TakeSenderPhase(s, t, room, p); }
    forall r | 0 <= r < MAX_TASKS ensures FifoOk(s', r) { TakeSenderFifo(s, t, room, r); }
  }

  lemma CompleteSendPhase(s: State, t: nat, to: nat, reply: Message, p: nat)
    requires Shape(s) && IsTid(t) && IsTid(to) && p < MAX_TASKS && s.place[t] == InHand && s.place[to] == Replying(t)
    requires PhaseOk(s, p)
    ensures PhaseOk(CompleteSend(s, t, to, reply), p)
  {
    LogStep(s.log, Replied(t, to, reply, Take(reply, s.tasks[to].recvCap)), p);
  }

  lemma CompleteSendHand(s: State, t: nat, to: nat, reply: Message, p: nat)
    requires Shape(s) && IsTid(t) && IsTid(to) && p < MAX_TASKS && s.place[t] == InHand && s.place[to] == Replying(t)
    requires HandOk(s, p)
    ensures HandOk(CompleteSend(s, t, to, reply), p)
  {
    hide PhaseOf, SentTo, ReceivedBy, Take;
    LogStep(s.log, Replied(t, to, reply, Take(reply, s.tasks[to].recvCap)), p);
  }

  lemma CompleteSendFifo(s: State, t: nat, to: nat, reply: Message, r: nat)
    requires Linked(s) && IsTid(t) && IsTid(to) && r < MAX_TASKS && FifoOk(s, r)
    requires t !in s.sending[r] && to !in s.sending[r] && Linked(CompleteSend(s, t, to, reply))
    ensures FifoOk(CompleteSend(s, t, to, reply), r)
  {
    LogStep(s.log, Replied(t, to, reply, Take(reply, s.tasks[to].recvCap)), r);
  }

  lemma CompleteSendHistory(s: State, t: nat, to: nat, reply: Message)
    requires Holding(s, t) && History(s) && IsTid(to) && s.place[to] == Replying(t)
    ensures History(CompleteSend(s, t, to, reply))
  {
    NotQueued(s, t);
    NotQueued(s, to);
    CompleteSendInv(s, t, to, reply);
    var s' := CompleteSend(s, t, to, reply);
    InvLinked(s');
    hide Inv, PhaseOk, FifoOk, HandOk, CompleteSend;
    forall p | 0 <= p < MAX_TASKS ensures HandOk(s', p) { CompleteSendHand(s, t, to, reply, p); }
    forall p | 0 <= p < MAX_TASKS ensures PhaseOk(s', p) { CompleteSendPhase(s, t, to, reply, p); }
    forall r | 0 <= r < MAX_TASKS ensures FifoOk(s', r) { CompleteSendFifo(s, t, to, reply, r); }
  }

  // ----- handlers -----

  lemma SendHistory(s: State, t: nat, to: int, msg: Message, cap: nat)
    requires Holding(s, t) && History(s)
    ensures History(HandleSend(s, t, to, msg, cap))
  {
    SendSettles(s, t, to, msg, cap);
    InvLinked(HandleSend(s, t, to, msg, cap));
    if !IsTid(to) {
      AnswerHistory(s, t, -1);
    } else {
      hide Inv, History;
      TaskFacts(s, to);
      if s.tasks[to].status == ReceiveBlock {
        DeliverHistory(s, t, to, msg, cap);
        QueueTaskHistory(Deliver(s, t, to, msg, cap), to);
      } else {
        BlockOnSendHistory(s, t, to, msg, cap);
      }
    }
  }

  lemma ReceiveHistory(s: State, t: nat, room: nat)
    requires Holding(s, t) && History(s)
    ensures s.sending[t] != [] ==> IsTid(s.sending[t][0])
    ensures History(HandleReceive(s, t, room))
  {
    ReceiveSettles(s, t, room);
    InvLinked(HandleReceive(s, t, room));
    hide Inv, History;
    if s.sending[t] == [] {
      BlockOnReceiveHistory(s, t, room);
    } else {
      TakeSenderHistory(s, t, room);
      TakeSenderInv(s, t, room);
      QueueTaskHistory(TakeSender(s, t, room), t);
    }
  }

  lemma ReplyHistory(s: State, t: nat, to: int, reply: Message)
    requires Holding(s, t) && History(s)
    ensures History(HandleReply(s, t, to, reply))
  {
    ReplySettles(s, t, to, reply);
    InvLinked(HandleReply(s, t, to, reply));
    if IsTid(to) { TaskFacts(s, to); }
    if !IsTid(to) {
      AnswerHistory(s, t, -1);
    } else if s.tasks[to].status != ReplyBlock {
      AnswerHistory(s, t, -3);
    } else if s.tasks[to].originalReceiver != t {
      AnswerHistory(s, t, -5);
    } else {
      hide Inv, History;
      var s1 := CompleteSend(s, t, to, reply);
      CompleteSendHistory(s, t, to, reply);
      CompleteSendInv(s, t, to, reply);
      QueueTaskInv(s1, to);
      InvLinked(QueueTask(s1, to));
      QueueTaskHistory(s1, to);
      QueueTaskHistory(QueueTask(s1, to), t);
    }
  }

  /** A new task, with or without its argument, has not sent anything. */
  lemma NewTaskHistory(s: State, s': State)
    requires Inv(s) && History(s) && CreateError(s, 0, true) == 0 && Linked(s')
    requires s'.log == s.log && s'.sending == s.sending && s'.place == s.place[s.nextId := InReady]
    requires forall p :: 0 <= p < MAX_TASKS && p != s.nextId ==> s'.tasks[p] == s.tasks[p]
    requires s'.tasks[s.nextId].sendBuf == s.tasks[s.nextId].sendBuf
      && s'.tasks[s.nextId].recvCap == s.tasks[s.nextId].recvCap
    ensures History(s')
  {
    hide Inv, FifoOk, PhaseOk, HandOk;
    NewIdFacts(s);
    ViewHistory(s, s');
  }

  lemma CreateHistory(s: State, t: nat, priority: int, hasCode: bool)
    requires Holding(s, t) && History(s)
    ensures s.nextId > 0 && History(HandleCreate(s, t, priority, hasCode))
  {
    if CreateError(s, priority, hasCode) != 0 {
      AnswerHistory(s, t, CreateError(s, priority, hasCode));
    } else {
      AddTaskInv(s, priority, t);
      var s1 := QueueTask(AddTask(s, priority, t), s.nextId);
      QueueTaskInv(AddTask(s, priority, t), s.nextId);
      InvLinked(s1);
      NewTaskHistory(s, s1);
      hide Inv, History;
      AnswerHistory(s1, t, s.nextId);
    }
  }

  lemma SpawnHistory(s: State, t: nat, priority: int, hasCode: bool, argument: int)
    requires Holding(s, t) && History(s)
    ensures s.nextId > 0 && History(HandleSpawn(s, t, priority, hasCode, argument))
  {
    hide Inv, History;
    NewIdFacts(s);
    if CreateError(s, priority, hasCode) != 0 {
      AnswerHistory(s, t, -1);
    } else {
      AddTaskInv(s, priority, t);
      var s0 := SetRet(AddTask(s, priority, t), s.nextId, argument);
      SetRetInv(AddTask(s, priority, t), s.nextId, argument);
      var s1 := QueueTask(s0, s.nextId);
      QueueTaskInv(s0, s.nextId);
      InvLinked(s1);
      NewTaskHistory(s, s1);
      AnswerHistory(s1, t, s.nextId);
    }
  }

  lemma AwaitEventHistory(s: State, t: nat, event: nat)
    requires Holding(s, t) && History(s)
    ensures event < NUM_EVENTS ==> s.events[event] < MAX_TASKS
    ensures History(AwaitInterrupt(s, t, event))
  {
    if event >= NUM_EVENTS { AnswerHistory(s, t, -1); } else { AwaitHistory(s, t, event); }
  }

  lemma RequestHistory(s: State, t: nat, request: Request)
    requires Holding(s, t) && History(s)
    ensures History(HandleRequest(s, t, request))
  {
    hide Inv;
    match request
    case AwaitEvent(event) => AwaitEventHistory(s, t, event);
    case Send(to, msg, cap) => SendHistory(s, t, to, msg, cap);
    case Receive(room) => ReceiveHistory(s, t, room);
    case Reply(to, msg) => ReplyHistory(s, t, to, msg);
    case Create(priority, hasCode) => CreateHistory(s, t, priority, hasCode);
    case Spawn(priority, hasCode, argument) => SpawnHistory(s, t, priority, hasCode, argument);
    case MyTid => AnswerHistory(s, t, IndexOf(s.tasks[t].id));
    case MyParentTid => AnswerHistory(s, t, IndexOf(s.tasks[t].parent));
    case Pass => AnswerHistory(s, t, s.tasks[t].ret);
    case Exit => ExitHistory(s, t);
    case Halt => HaltHistory(s, t);
    case Unknown => AnswerHistory(s, t, s.tasks[t].ret);
  }

  lemma UartHistory(s: State, uart1: Uart1, halted: bool)
    requires Inv(s) && History(s)
    ensures Inv(s.(uart1 := uart1, halted := halted)) && History(s.(uart1 := uart1, halted := halted))
  {
    var s' := s.(uart1 := uart1, halted := halted);
    assert Inv(s');
    InvLinked(s');
    ViewHistory(s, s');
  }

  lemma InterruptHistory(s: State, irq: Irq)
    requires Inv(s) && History(s)
    ensures History(HandleInterrupt(s, irq))
  {
    hide Inv, History, Fire, Handle;
    InvLinked(s);
    FireHistory(s, TIMER_EVENT, 0);
    FireHistory(s, UART2_RECV_EVENT, irq.data);
    FireHistory(s, UART2_XMIT_EVENT, UART2_DATA);
    FireHistory(s, UART1_RECV_EVENT, irq.data);
    if !irq.timer && irq.uart1 && (irq.modem || irq.transmit) {
      var uart1 := Handle(s.uart1, if irq.modem then Modem(irq.cts, irq.dcts) else Transmit).0;
      UartHistory(s, uart1, s.halted);
      FireHistory(s.(uart1 := uart1), UART1_XMIT_EVENT, UART1_DATA);
    }
    UartHistory(s, s.uart1, true);
  }

  lemma TrapHistory(s: State, t: nat, trap: Trap)
    requires Holding(s, t) && History(s)
    ensures History(HandleTrap(s, t, trap))
  {
    match trap
    case Interrupt(irq) =>
      InterruptHistory(s, irq);
      InterruptHolds(s, t, irq);
      var s1 := HandleInterrupt(s, irq);
      if !s1.halted {
        hide HandleInterrupt;
        AddToFrontInv(s1, t);
        InvLinked(AddToFront(s1, t));
        hide Inv;
        ViewHistory(s1, AddToFront(s1, t));
      }
    case Syscall(request) => RequestHistory(s, t, request);
  }

  lemma ScheduleHistory(s: State)
    requires Inv(s) && History(s) && !Idle(s)
    ensures IsTid(NextTask(s)) && History(Schedule(s))
  {
    ScheduleInv(s);
    InvLinked(Schedule(s));
    hide Inv;
    ViewHistory(s, Schedule(s));
  }

  lemma StepHistory(s: State, trap: Trap)
    requires Settled(s) && History(s)
    ensures Linked(s) && History(Step(s, trap))
  {
    InvLinked(s);
    if !s.halted && !Idle(s) {
      ScheduleInv(s);
      ScheduleHistory(s);
      hide Inv, History;
      TrapHistory(Schedule(s), NextTask(s), trap);
    } else if !s.halted {
      UartHistory(s, s.uart1, true);
    }
  }

  lemma BootHistory(empty: State)
    requires IsEmpty(empty)
    ensures History(Boot(empty))
  {
    BootInv(empty);
    InvLinked(Boot(empty));
  }

  lemma {:induction false} RunHistory(empty: State, traps: seq<Trap>)
    requires IsEmpty(empty)
    ensures History(Run(empty, traps))
  {
    if traps == [] {
      BootHistory(empty);
    } else {
      hide Inv, History;
      RunHistory(empty, traps[..|traps| - 1]);
      StepHistory(Run(empty, traps[..|traps| - 1]), traps[|traps| - 1]);
    }
  }
}
