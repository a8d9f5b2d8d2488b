/** Queues threaded through one intrusive `next` column: a queue is a head and a tail, 0 is
    the null link, and ready queues and send queues share the column. */
module QueueLinks {
  import opened Tasks
  import opened Common
  import opened Bits
  import opened KernelState
  import opened KernelInvariant

  datatype TaskQueue = TaskQueue(head: nat, tail: nat)

  const EMPTY_QUEUE := TaskQueue(0, 0)

  /** The queue q, followed through `next`, is the sequence s: acyclic, with the right tail. */
  ghost predicate IsList(next: seq<nat>, q: TaskQueue, s: seq<nat>) {
    && (forall i :: 0 <= i < |s| ==> IsTid(s[i]) && s[i] < |next|)
    && (if s == [] then q == EMPTY_QUEUE else
          && q == TaskQueue(s[0], s[|s| - 1]) && next[q.tail] == 0
          && forall i :: 0 <= i < |s| - 1 ==> next[s[i]] == s[i + 1])
  }

  ghost predicate Lists(next: seq<nat>, ready: seq<TaskQueue>, sending: seq<TaskQueue>, s: State) {
    && Shape(s) && |next| == MAX_TASKS && |ready| == MAX_PRIORITY && |sending| == MAX_TASKS
    && (forall p :: 0 <= p < MAX_PRIORITY ==> IsList(next, ready[p], s.ready[p]))
    && (forall r :: 0 <= r < MAX_TASKS ==> IsList(next, sending[r], s.sending[r]))
  }

  /** Bit p of the status word is set exactly when ready queue p is not empty. */
  ghost predicate StatusWord(word: nat, ready: seq<seq<nat>>) {
    word < WORD && forall p: nat :: p < MAX_PRIORITY && p < |ready| ==> (Bit(word, p) <==> ready[p] != [])
  }

  // ----- one queue -----

  function LinkBehind(next: seq<nat>, q: TaskQueue, t: nat): seq<nat>
    requires t < |next| && q.tail < |next|
  {
    if q.tail == 0 then next[t := 0] else next[t := 0][q.tail := t]
  }

  function QueueBehind(q: TaskQueue, t: nat): TaskQueue {
    if q.tail == 0 then TaskQueue(t, t) else q.(tail := t)
  }

  lemma AppendList(next: seq<nat>, q: TaskQueue, s: seq<nat>, t: nat)
    requires IsList(next, q, s) && IsTid(t) && t < |next| && t !in s && NoRepeats(s)
    ensures q.tail < |next| && IsList(LinkBehind(next, q, t), QueueBehind(q, t), s + [t])
  {
    if s != [] {
      var next' := LinkBehind(next, q, t);
      forall i | 0 <= i < |s + [t]| - 1
        ensures next'[(s + [t])[i]] == (s + [t])[i + 1]
      {
        if i < |s| - 1 {
          assert s[i] in s && s[i] != s[|s| - 1];
        }
      }
    }
  }

  function QueueWithout(next: seq<nat>, q: TaskQueue): TaskQueue
    requires q.head < |next|
  {
    if q.head == q.tail then EMPTY_QUEUE else q.(head := next[q.head])
  }

  lemma PopList(next: seq<nat>, q: TaskQueue, s: seq<nat>)
    requires IsList(next, q, s) && s != [] && NoRepeats(s)
    ensures q.head == s[0] && (q.head == q.tail <==> |s| == 1)
    ensures q.head != q.tail ==> next[q.head] != 0
    ensures IsList(next[q.head := 0], QueueWithout(next, q), s[1..])
  {
    if |s| > 1 { assert s[0] != s[|s| - 1] && next[s[0]] == s[1]; }
  }

  lemma PushList(next: seq<nat>, q: TaskQueue, s: seq<nat>, t: nat)
    requires IsList(next, q, s) && IsTid(t) && t < |next| && t !in s
    ensures IsList(next[t := q.head], TaskQueue(t, if s == [] then t else q.tail), [t] + s)
  {
    var next' := next[t := q.head];
    forall i | 0 <= i < |[t] + s| - 1
      ensures next'[([t] + s)[i]] == ([t] + s)[i + 1]
    {
      if i > 0 { assert s[i - 1] in s; }
    }
    if s != [] { assert s[|s| - 1] in s; }
  }

  /** A write to a link outside a queue leaves the queue as it is. */
  lemma OtherList(next: seq<nat>, next': seq<nat>, q: TaskQueue, s: seq<nat>)
    requires IsList(next, q, s) && |next'| == |next|
    requires forall i :: 0 <= i < |s| ==> next'[s[i]] == next[s[i]]
    ensures IsList(next', q, s)
  {
  }

  // ----- all queues -----

  lemma Elsewhere(s: State, t: nat)
    requires Inv(s) && IsTid(t)
    ensures forall p :: 0 <= p < MAX_PRIORITY && t in s.ready[p] ==> s.place[t] == InReady && p == Prio(s, t)
    ensures forall r :: 0 <= r < MAX_TASKS && t in s.sending[r] ==> s.place[t] == InSend(r)
  {
  }

  /** Two links were written: the queues that hold neither task stand. */
  lemma OtherLists(
    next: seq<nat>, next': seq<nat>, ready: seq<TaskQueue>, sending: seq<TaskQueue>, s: State, x: nat, y: nat)
    requires Lists(next, ready, sending, s) && |next'| == |next|
    requires forall i :: 0 <= i < |next| && i != x && i != y ==> next'[i] == next[i]
    ensures forall p :: 0 <= p < MAX_PRIORITY && x !in s.ready[p] && y !in s.ready[p] ==>
      IsList(next', ready[p], s.ready[p])
    ensures forall r :: 0 <= r < MAX_TASKS && x !in s.sending[r] && y !in s.sending[r] ==>
      IsList(next', sending[r], s.sending[r])
  {
    forall p | 0 <= p < MAX_PRIORITY && x !in s.ready[p] && y !in s.ready[p]
      ensures IsList(next', ready[p], s.ready[p])
    {
      OtherList(next, next', ready[p], s.ready[p]);
    }
    forall r | 0 <= r < MAX_TASKS && x !in s.sending[r] && y !in s.sending[r]
      ensures IsList(next', sending[r], s.sending[r])
    {
      OtherList(next, next', sending[r], s.sending[r]);
    }
  }

  /** What the proofs below take from the invariant about a queue they change. */
  lemma ReadyQueueFacts(s: State, p: nat)
    requires Inv(s) && p < MAX_PRIORITY
    ensures Shape(s) && NoRepeats(s.ready[p])
    ensures forall t :: t in s.ready[p] ==> IsTid(t) && s.place[t] == InReady && Prio(s, t) == p
  {
  }

  lemma SendQueueFacts(s: State, r: nat)
    requires Inv(s) && r < MAX_TASKS
    ensures Shape(s) && NoRepeats(s.sending[r])
    ensures forall t :: t in s.sending[r] ==> IsTid(t) && s.place[t] == InSend(r)
  {
  }

  lemma ListEnds(next: seq<nat>, q: TaskQueue, s: seq<nat>)
    requires IsList(next, q, s)
    ensures q.tail < |next| || q.tail == 0
    ensures q.head == 0 <==> s == []
    ensures q.tail == 0 <==> s == []
    ensures s != [] ==> q.head == s[0] && q.tail in s
  {
  }

  lemma QueueTaskLists(next: seq<nat>, ready: seq<TaskQueue>, sending: seq<TaskQueue>, s: State, t: nat)
    requires Inv(s) && Lists(next, ready, sending, s) && IsTid(t) && s.place[t] == InHand
    ensures ready[Prio(s, t)].tail < |next|
    ensures var p := Prio(s, t);
      Lists(LinkBehind(next, ready[p], t), ready[p := QueueBehind(ready[p], t)], sending, QueueTask(s, t))
  {
    hide Inv, IsList;
    var p := Prio(s, t);
    var q := ready[p];
    Elsewhere(s, t);
    ReadyQueueFacts(s, p);
    ListEnds(next, q, s.ready[p]);
    AppendList(next, q, s.ready[p], t);
    if q.tail != 0 { Elsewhere(s, q.tail); }
    OtherLists(next, LinkBehind(next, q, t), ready, sending, s, t, if q.tail == 0 then t else q.tail);
  }

  lemma AddToFrontLists(next: seq<nat>, ready: seq<TaskQueue>, sending: seq<TaskQueue>, s: State, t: nat)
    requires Inv(s) && Lists(next, ready, sending, s) && IsTid(t) && s.place[t] == InHand
    ensures var p := Prio(s, t);
      var q := TaskQueue(t, if ready[p].head == 0 then t else ready[p].tail);
      Lists(next[t := ready[p].head], ready[p := q], sending, AddToFront(s, t))
  {
    hide Inv, IsList;
    var p := Prio(s, t);
    Elsewhere(s, t);
    ListEnds(next, ready[p], s.ready[p]);
    PushList(next, ready[p], s.ready[p], t);
    OtherLists(next, next[t := ready[p].head], ready, sending, s, t, t);
  }

  lemma ScheduleLists(next: seq<nat>, ready: seq<TaskQueue>, sending: seq<TaskQueue>, s: State)
    requires Inv(s) && Lists(next, ready, sending, s) && !Idle(s)
    ensures IsTid(NextTask(s))
    ensures var q := ready[TopPriority(s)];
      && q.head == NextTask(s) && (q.head == q.tail <==> |s.ready[TopPriority(s)]| == 1)
      && (q.head != q.tail ==> next[q.head] != 0)
      && Lists(next[q.head := 0], ready[TopPriority(s) := QueueWithout(next, q)], sending, Schedule(s))
  {
    hide Inv, IsList;
    var p := TopPriority(s);
    var q := ready[p];
    ReadyQueueFacts(s, p);
    assert s.ready[p][0] in s.ready[p];
    PopList(next, q, s.ready[p]);
    Elsewhere(s, q.head);
    OtherLists(next, next[q.head := 0], ready, sending, s, q.head, q.head);
  }

  lemma BlockOnSendLists(next: seq<nat>, ready: seq<TaskQueue>, sending: seq<TaskQueue>, s: State,
                         t: nat, to: nat, msg: Message, cap: nat)
    requires Inv(s) && Lists(next, ready, sending, s) && IsTid(t) && IsTid(to) && s.place[t] == InHand
    ensures sending[to].tail < |next|
    ensures Lists(LinkBehind(next, sending[to], t), ready, sending[to := QueueBehind(sending[to], t)],
                  BlockOnSend(s, t, to, msg, cap))
  {
    hide Inv, IsList;
    var q := sending[to];
    Elsewhere(s, t);
    SendQueueFacts(s, to);
    ListEnds(next, q, s.sending[to]);
    AppendList(next, q, s.sending[to], t);
    if q.tail != 0 { Elsewhere(s, q.tail); }
    OtherLists(next, LinkBehind(next, q, t), ready, sending, s, t, if q.tail == 0 then t else q.tail);
  }

  lemma TakeSenderLists(next: seq<nat>, ready: seq<TaskQueue>, sending: seq<TaskQueue>, s: State, t: nat, room: nat)
    requires Inv(s) && Lists(next, ready, sending, s) && IsTid(t) && s.sending[t] != []
    ensures IsTid(s.sending[t][0]) && sending[t].head == s.sending[t][0]
    ensures Lists(next[sending[t].head := 0], ready, sending[t := QueueWithout(next, sending[t])],
      TakeSender(s, t, room))
  {
    hide Inv, IsList;
    var q := sending[t];
    SendQueueFacts(s, t);
    assert s.sending[t][0] in s.sending[t];
    PopList(next, q, s.sending[t]);
    Elsewhere(s, q.head);
    OtherLists(next, next[q.head := 0], ready, sending, s, q.head, q.head);
  }

  /** A task in no queue may have its link cleared. */
  lemma ClearLinkLists(next: seq<nat>, ready: seq<TaskQueue>, sending: seq<TaskQueue>, s: State, t: nat)
    requires Inv(s) && Lists(next, ready, sending, s) && IsTid(t) && s.place[t] != InReady && !s.place[t].InSend?
    ensures Lists(next[t := 0], ready, sending, s)
  {
    hide Inv, IsList;
    Elsewhere(s, t);
    OtherLists(next, next[t := 0], ready, sending, s, t, t);
  }

  lemma SameQueues(next: seq<nat>, ready: seq<TaskQueue>, sending: seq<TaskQueue>, s: State, s': State)
    requires Lists(next, ready, sending, s) && Shape(s') && s'.ready == s.ready && s'.sending == s.sending
    ensures Lists(next, ready, sending, s')
  {
  }

  lemma EmptyLists(next: seq<nat>, ready: seq<TaskQueue>, sending: seq<TaskQueue>, s: State)
    requires IsEmpty(s) && |next| == MAX_TASKS && |ready| == MAX_PRIORITY && |sending| == MAX_TASKS
    requires forall p :: 0 <= p < MAX_PRIORITY ==> ready[p] == EMPTY_QUEUE
    requires forall r :: 0 <= r < MAX_TASKS ==> sending[r] == EMPTY_QUEUE
    ensures Lists(next, ready, sending, s) && StatusWord(0, s.ready)
  {
    forall p: nat ensures !Bit(0, p) { ZeroBit(p); }
  }

  // ----- the status word -----

  lemma SetStatus(word: nat, ready: seq<seq<nat>>, p: nat, queue: seq<nat>)
    requires StatusWord(word, ready) && |ready| == MAX_PRIORITY && p < MAX_PRIORITY && queue != []
    ensures StatusWord(Or(word, Pow2(p)), ready[p := queue])
  {
    SetBit(word, p);
    WordIsPow2();
    Pow2Increases(p, 32);
    OrBound(word, Pow2(p), 32);
  }

  lemma KeepStatus(word: nat, ready: seq<seq<nat>>, p: nat, queue: seq<nat>)
    requires StatusWord(word, ready) && |ready| == MAX_PRIORITY && p < MAX_PRIORITY
    requires queue == [] <==> ready[p] == []
    ensures StatusWord(word, ready[p := queue])
  {
  }

  lemma ClearStatus(word: nat, ready: seq<seq<nat>>, p: nat)
    requires StatusWord(word, ready) && |ready| == MAX_PRIORITY && p < MAX_PRIORITY
    ensures StatusWord(AndNot(word, Pow2(p)), ready[p := []])
  {
    ClearBit(word, p);
    AndNotBound(word, Pow2(p));
  }

  /** The word is zero exactly when nothing is ready, and otherwise the table look-up finds
      the highest-priority queue that is not empty. */
  lemma LookUpFindsTopPriority(word: nat, s: State)
    requires Shape(s) && StatusWord(word, s.ready)
    ensures word == 0 <==> Idle(s)
    ensures word != 0 ==> LeastBitIndex(word) == TopPriority(s)
  {
    if word == 0 {
      forall p: nat | p < MAX_PRIORITY ensures s.ready[p] == [] { ZeroBit(p); }
    } else {
      LeastBitIndexIsLeast(word);
      var i := LeastBitIndex(word);
      assert s.ready[i] != [];
      assert forall q: nat | q < i :: s.ready[q] == [];
    }
  }
}
