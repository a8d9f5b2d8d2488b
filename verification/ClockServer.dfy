/** The clock server (user/clockserver.c): every run of requests to it. */
module ClockServer {
  import opened Common
  import opened DelayedQueue

  datatype Request =
    | Notification(tid: nat)
    | Time(tid: nat)
    | Delay(tid: nat, ticks: int)
    | DelayUntil(tid: nat, tick: int)

  datatype Reply = Empty(tid: nat) | Tick(tid: nat, tick: nat)

  datatype State = State(tick: nat, pending: seq<Entry>)

  /** A delayed task and the tick at which it is answered. */
  datatype Answer = Answer(entry: Entry, at: nat)

  /** The tick at which a delay is over; all arithmetic is on unsigned 32-bit words. */
  function Deadline(tick: nat, r: Request): nat
    requires r.Delay? || r.DelayUntil?
  {
    if r.Delay? then (r.ticks + tick) % WORD else r.tick % WORD
  }

  function NextTick(tick: nat): nat {
    (tick + 1) % WORD
  }

  function Step(s: State, r: Request): State {
    match r
    case Notification(_) =>
      var tick := NextTick(s.tick);
      State(tick, s.pending[Due(s.pending, tick)..])
    case Time(_) => s
    case _ => s.(pending := Insert(s.pending, Entry(r.tid, Deadline(s.tick, r))))
  }

  /** The delays that a request ends, in order. */
  function Ended(s: State, r: Request): (answers: seq<Answer>)
    ensures forall i: nat :: i < |answers| ==>
      answers[i].at == NextTick(s.tick) && answers[i].at >= answers[i].entry.finalTick
  {
    if r.Notification? then
      var tick := NextTick(s.tick);
      var k := Due(s.pending, tick);
      seq(k, i requires 0 <= i < k => Answer(s.pending[i], tick))
    else []
  }

  function Replies(s: State, r: Request): seq<Reply> {
    match r
    case Notification(tid) =>
      var ended := Ended(s, r);
      [Empty(tid)] + seq(|ended|, i requires 0 <= i < |ended| => Empty(ended[i].entry.tid))
    case Time(tid) => [Tick(tid, s.tick)]
    case _ => []
  }

  ghost predicate IsPending(s: State, tid: nat) {
    exists i: nat :: i < |s.pending| && s.pending[i].tid == tid
  }

  /** A delayed task is blocked, so it sends nothing until it is answered. */
  ghost predicate Acceptable(s: State, r: Request) {
    (r.Delay? || r.DelayUntil?) ==> r.tid < MAX_DELAYED_TASKS && !IsPending(s, r.tid)
  }

  class Server {
    const q: Queue
    var tick: nat

    ghost predicate Valid()
      reads this, q, q.tasks
    {
      q.Valid()
    }

    ghost function Now(): State
      reads this, q, q.tasks
      requires Valid()
    {
      State(tick, q.Pending())
    }

    constructor ()
      ensures Valid() && fresh(q) && fresh(q.tasks) && Now() == State(0, [])
    {
      q := new Queue();
      tick := 0;
    }

    method Serve(r: Request) returns (replies: seq<Reply>)
      requires Valid() && Acceptable(Now(), r)
      modifies this, q, q.tasks
      ensures Valid() && Now() == Step(old(Now()), r) && replies == Replies(old(Now()), r)
    {
      hide Insert, Due, IsRing, Entries;
      match r
      case Notification(tid) =>
        replies := [Empty(tid)];
        tick := NextTick(tick);
        var expired := q.RemoveExpiredTasks(tick);
        replies := replies + seq(|expired|, i requires 0 <= i < |expired| => Empty(expired[i]));
      case Time(tid) =>
        replies := [Tick(tid, tick)];
      case _ =>
        replies := [];
        NotInRing(q.tasks[..], q.ring, q.tail, r.tid);
        q.InsertDelayedTask(r.tid, Deadline(tick, r));
    }
  }

  lemma NotInRing(tasks: seq<DelayedTask>, ring: seq<nat>, tail: int, tid: nat)
    requires IsRing(tasks, ring, tail)
    requires var es := Entries(tasks, ring); forall i: nat :: i < |es| ==> es[i].tid != tid
    ensures tid !in ring
  {
    assert forall i: nat :: i < |ring| ==> Entries(tasks, ring)[i].tid == ring[i];
  }

  // ----- every run -----

  ghost function Run(requests: seq<Request>): State {
    if requests == [] then State(0, []) else Step(Run(requests[..|requests| - 1]), requests[|requests| - 1])
  }

  ghost predicate Possible(requests: seq<Request>) {
    requests == [] ||
    (Possible(requests[..|requests| - 1]) && Acceptable(Run(requests[..|requests| - 1]), requests[|requests| - 1]))
  }

  /** The delay that a request asks for. */
  ghost function Added(s: State, r: Request): multiset<Entry> {
    if r.Delay? || r.DelayUntil? then multiset{Entry(r.tid, Deadline(s.tick, r))} else multiset{}
  }

  /** Every delay that was asked for. */
  ghost function Asked(requests: seq<Request>): multiset<Entry> {
    if requests == [] then multiset{}
    else Asked(requests[..|requests| - 1]) + Added(Run(requests[..|requests| - 1]), requests[|requests| - 1])
  }

  /** Every delay that was ended, in order. */
  ghost function Answers(requests: seq<Request>): seq<Answer> {
    if requests == [] then []
    else Answers(requests[..|requests| - 1]) + Ended(Run(requests[..|requests| - 1]), requests[|requests| - 1])
  }

  ghost function EntriesOf(answers: seq<Answer>): (es: seq<Entry>)
    ensures |es| == |answers| && forall i: nat :: i < |es| ==> es[i] == answers[i].entry
  {
    seq(|answers|, i requires 0 <= i < |answers| => answers[i].entry)
  }

  /** One request moves each delay from asked to pending to answered, and loses none. */
  lemma StepConserves(s: State, r: Request)
    ensures multiset(EntriesOf(Ended(s, r))) + multiset(Step(s, r).pending) == multiset(s.pending) + Added(s, r)
  {
    hide Insert, Due;
    if r.Notification? {
      var k := Due(s.pending, NextTick(s.tick));
      assert EntriesOf(Ended(s, r)) == s.pending[..k];
      assert s.pending == s.pending[..k] + s.pending[k..];
    } else if !r.Time? {
      InsertAddsOne(s.pending, Entry(r.tid, Deadline(s.tick, r)));
    }
  }

  /** Every delay asked for has been answered exactly once, or is still pending. */
  lemma {:induction false} EachAnsweredOnce(requests: seq<Request>)
    ensures Asked(requests) == multiset(EntriesOf(Answers(requests))) + multiset(Run(requests).pending)
  {
    hide Step, Ended, Added;
    assert EntriesOf([]) == [];
    if requests != [] {
      var before, r := requests[..|requests| - 1], requests[|requests| - 1];
      EachAnsweredOnce(before);
      StepConserves(Run(before), r);
      var answered, ended := EntriesOf(Answers(before)), EntriesOf(Ended(Run(before), r));
      assert Asked(requests) == Asked(before) + Added(Run(before), r);
      assert EntriesOf(Answers(requests)) == answered + ended;
      assert multiset(answered + ended) == multiset(answered) + multiset(ended);
      var a, s := multiset(answered), Run(before);
      assert a + multiset(s.pending) + Added(s, r) == a + (multiset(s.pending) + Added(s, r));
      assert a + multiset(ended) + multiset(Step(s, r).pending) == a + (multiset(ended) + multiset(Step(s, r).pending));
    }
  }

  /** No delay is answered before its deadline. */
  lemma {:induction false} NeverEarly(requests: seq<Request>, i: nat)
    requires i < |Answers(requests)|
    ensures Answers(requests)[i].at >= Answers(requests)[i].entry.finalTick
  {
    var before := requests[..|requests| - 1];
    if i < |Answers(before)| { NeverEarly(before, i); }
  }

  function Notifications(requests: seq<Request>): nat {
    if requests == [] then 0
    else Notifications(requests[..|requests| - 1]) + if requests[|requests| - 1].Notification? then 1 else 0
  }

  /** The tick is the number of notifications so far, as a word. */
  lemma {:induction false} TickCounts(requests: seq<Request>)
    ensures Run(requests).tick == Notifications(requests) % WORD
  {
    hide Due, Insert;
    if requests != [] { TickCounts(requests[..|requests| - 1]); }
  }

  ghost predicate OnePerTask(s: State) {
    forall i: nat, j: nat :: i < j < |s.pending| ==> s.pending[i].tid != s.pending[j].tid
  }

  lemma StepKeepsOnePerTask(s: State, r: Request)
    requires OnePerTask(s) && Acceptable(s, r)
    ensures OnePerTask(Step(s, r))
  {
    hide Due, Insert, FirstFrom;
    if r.Delay? || r.DelayUntil? {
      var e := Entry(r.tid, Deadline(s.tick, r));
      var p := FirstFrom(s.pending, e.finalTick);
      if p < |s.pending| {
        InsertInside(s.pending, e, p);
        var t := Insert(s.pending, e);
        forall i: nat | i < |s.pending| ensures s.pending[i].tid != r.tid { assert !IsPending(s, r.tid); }
        forall i: nat, j: nat | i < j < |t| ensures t[i].tid != t[j].tid {
          if i > p { assert t[i - 1 + 1] == s.pending[i - 1]; }
          if j > p { assert t[j - 1 + 1] == s.pending[j - 1]; }
        }
      } else if s.pending != [] {
        InsertMaximum(s.pending, e);
      } else {
        InsertFirst(e);
      }
    }
  }

  /** In every run a task has at most one pending delay. */
  lemma {:induction false} AlwaysOnePerTask(requests: seq<Request>)
    requires Possible(requests)
    ensures OnePerTask(Run(requests))
  {
    if requests != [] {
      AlwaysOnePerTask(requests[..|requests| - 1]);
      StepKeepsOnePerTask(Run(requests[..|requests| - 1]), requests[|requests| - 1]);
    }
  }

  /** A notification answers the delay at position p exactly if everything up to it is due. */
  lemma AnsweredIff(s: State, r: Request, p: nat)
    requires r.Notification? && p < |s.pending|
    ensures p < |Ended(s, r)| <==> forall j: nat :: j <= p ==> s.pending[j].finalTick <= NextTick(s.tick)
    ensures p < |Ended(s, r)| ==> Ended(s, r)[p].entry == s.pending[p]
  {
  }

  /** Once the tick has reached every deadline nothing stays pending. */
  lemma EmptiedWhenAllDue(s: State, r: Request)
    requires r.Notification? && forall i: nat :: i < |s.pending| ==> s.pending[i].finalTick <= NextTick(s.tick)
    ensures Step(s, r).pending == [] && |Ended(s, r)| == |s.pending|
  {
  }

  ghost predicate Late(s: State, i: nat) {
    i < |s.pending| && s.pending[i].finalTick <= s.tick
  }

  /** A notification leaves nothing that is due exactly if no due delay stood behind one that is
      not due. */
  lemma PromptIff(s: State, r: Request)
    requires r.Notification?
    ensures (forall i: nat :: !Late(Step(s, r), i)) <==>
      forall i: nat, j: nat :: i < j < |s.pending| && s.pending[i].finalTick > NextTick(s.tick) ==>
        s.pending[j].finalTick > NextTick(s.tick)
  {
    var tick := NextTick(s.tick);
    var k, t := Due(s.pending, tick), Step(s, r);
    if forall i: nat :: !Late(t, i) {
      forall i: nat, j: nat | i < j < |s.pending| && s.pending[i].finalTick > tick
        ensures s.pending[j].finalTick > tick
      {
        assert i >= k && !Late(t, j - k) && t.pending[j - k] == s.pending[j];
      }
    } else {
      var i: nat :| Late(t, i);
      assert t.pending[i] == s.pending[k + i];
    }
  }

  // ----- a delay that ends too late -----

  function Ticks(k: nat): seq<Request> {
    if k == 0 then [] else Ticks(k - 1) + [Notification(9)]
  }

  const THREE_DELAYS := [DelayUntil(1, 10), DelayUntil(2, 20), DelayUntil(3, 30)]

  lemma RunMore(requests: seq<Request>, r: Request)
    ensures Run(requests + [r]) == Step(Run(requests), r)
    ensures Possible(requests + [r]) <==> Possible(requests) && Acceptable(Run(requests), r)
  {
    assert (requests + [r])[..|requests|] == requests;
  }

  lemma RunOfThree()
    ensures Run(THREE_DELAYS) == State(0, [Entry(2, 20), Entry(1, 10), Entry(3, 30)]) && Possible(THREE_DELAYS)
  {
    hide Run, Possible, Step, Acceptable;
    var a, b, c := DelayUntil(1, 10), DelayUntil(2, 20), DelayUntil(3, 30);
    RunOfNone();
    ThreeSteps();
    RunMore([], a);
    RunMore([a], b);
    RunMore([a, b], c);
    assert [] + [a] == [a] && [a] + [b] == [a, b] && [a, b] + [c] == THREE_DELAYS;
  }

  lemma RunOfNone()
    ensures Run([]) == State(0, []) && Possible([])
  {
  }

  lemma ThreeSteps()
    ensures Acceptable(State(0, []), DelayUntil(1, 10))
    ensures Acceptable(State(0, [Entry(1, 10)]), DelayUntil(2, 20))
    ensures Acceptable(State(0, [Entry(1, 10), Entry(2, 20)]), DelayUntil(3, 30))
    ensures Step(State(0, []), DelayUntil(1, 10)) == State(0, [Entry(1, 10)])
    ensures Step(State(0, [Entry(1, 10)]), DelayUntil(2, 20)) == State(0, [Entry(1, 10), Entry(2, 20)])
    ensures Step(State(0, [Entry(1, 10), Entry(2, 20)]), DelayUntil(3, 30)) ==
      State(0, [Entry(2, 20), Entry(1, 10), Entry(3, 30)])
  {
    assert FirstFrom([Entry(1, 10)], 20) == 1;
    assert FirstFrom([Entry(1, 10), Entry(2, 20)], 30) == 2;
    InsertMaximum([Entry(1, 10)], Entry(2, 20));
    InsertMaximum([Entry(1, 10), Entry(2, 20)], Entry(3, 30));
  }

  lemma TicksMore(k: nat)
    ensures Ticks(k) == if k == 0 then [] else Ticks(k - 1) + [Notification(9)]
  {
  }

  lemma TickBefore20(k: nat)
    requires k < 19
    ensures var pending := [Entry(2, 20), Entry(1, 10), Entry(3, 30)];
      Step(State(k, pending), Notification(9)) == State(k + 1, pending)
  {
    var pending := [Entry(2, 20), Entry(1, 10), Entry(3, 30)];
    assert Due(pending, k + 1) == 0;
  }

  /** Delays until 10, 20 and 30, in that order: the first one is still pending at every tick
      from 10 to 19. */
  lemma {:induction false} DelayEndsLate(k: nat)
    requires k < 20
    ensures var s := Run(THREE_DELAYS + Ticks(k));
      s == State(k, [Entry(2, 20), Entry(1, 10), Entry(3, 30)]) && (k >= 10 ==> Late(s, 1))
    ensures Possible(THREE_DELAYS + Ticks(k))
  {
    hide Run, Possible, Step, Due, Insert, Ticks;
    TicksMore(k);
    if k == 0 {
      RunOfThree();
      assert THREE_DELAYS + Ticks(0) == THREE_DELAYS;
    } else {
      DelayEndsLate(k - 1);
      assert THREE_DELAYS + Ticks(k) == THREE_DELAYS + Ticks(k - 1) + [Notification(9)];
      RunMore(THREE_DELAYS + Ticks(k - 1), Notification(9));
      TickBefore20(k - 1);
    }
  }
}
