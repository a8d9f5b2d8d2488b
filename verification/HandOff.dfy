/** Handing work to a worker that asks for it: the engineer's commands (user/engineer.c) and the
    sensor server's deliveries (user/sensor.c). A worker that finds nothing is left blocked; work
    that finds no blocked worker is queued in a ring. */
module HandOff {
  import opened Rings

  /** `waiting` is the blocked worker, or 0. */
  datatype State<T> = State(waiting: nat, queue: seq<T>)
  datatype Event<T> = Offer(x: T) | Ask(tid: nat)
  datatype Gift<T> = Gift(to: nat, x: T)

  function Step<T>(s: State<T>, e: Event<T>, capacity: nat): State<T> {
    match e
    case Offer(x) => if s.waiting != 0 then s.(waiting := 0) else s.(queue := Pushed(s.queue, x, capacity))
    case Ask(tid) => if s.queue == [] then s.(waiting := tid) else s.(queue := s.queue[1..])
  }

  /** What is handed over, and to whom. */
  function Given<T>(s: State<T>, e: Event<T>): seq<Gift<T>> {
    match e
    case Offer(x) => if s.waiting != 0 then [Gift(s.waiting, x)] else []
    case Ask(tid) => if s.queue == [] then [] else [Gift(tid, s.queue[0])]
  }

  class Desk<T> {
    const ring: Ring<T>
    var waiting: nat

    ghost predicate Valid()
      reads this, ring
    {
      ring.Valid()
    }

    ghost function Now(): State<T>
      reads this, ring, ring.data
      requires Valid()
    {
      State(waiting, ring.Contents())
    }

    constructor (ring: Ring<T>)
      requires ring.Valid()
      ensures Valid() && this.ring == ring && Now() == State(0, ring.Contents())
    {
      this.ring := ring;
      waiting := 0;
    }

    method Offer(x: T) returns (given: seq<Gift<T>>)
      requires Valid()
      modifies this, ring, ring.data
      ensures Valid() && Now() == Step(old(Now()), Event.Offer(x), ring.size - 1)
      ensures given == Given(old(Now()), Event.Offer(x))
    {
      if waiting != 0 {
        given := [Gift(waiting, x)];
        waiting := 0;
      } else {
        var _ := ring.Push(x);
        given := [];
      }
    }

    method Ask(tid: nat) returns (given: seq<Gift<T>>)
      requires Valid()
      modifies this, ring
      ensures Valid() && Now() == Step(old(Now()), Event.Ask(tid), ring.size - 1)
      ensures given == Given(old(Now()), Event.Ask(tid))
    {
      var none := ring.IsEmpty();
      if none {
        waiting := tid;
        given := [];
      } else {
        var x := ring.Pop();
        given := [Gift(tid, x.value)];
      }
    }
  }

  // ----- every run -----

  /** The state with its history: the work offered and the workers that asked, and what was
      given to whom, each in order. */
  datatype History<T> = History(s: State<T>, offered: seq<T>, asked: seq<nat>, given: seq<T>, givenTo: seq<nat>)

  function Start<T>(): History<T> {
    History(State(0, []), [], [], [], [])
  }

  /** A worker is no task 0, and a blocked worker does not ask again. */
  predicate Acceptable<T>(s: State<T>, e: Event<T>) {
    e.Ask? ==> e.tid != 0 && s.waiting == 0
  }

  function Things<T>(gifts: seq<Gift<T>>): (xs: seq<T>)
    ensures |xs| == |gifts| && forall i: nat :: i < |xs| ==> xs[i] == gifts[i].x
  {
    seq(|gifts|, i requires 0 <= i < |gifts| => gifts[i].x)
  }

  function Takers<T>(gifts: seq<Gift<T>>): (tids: seq<nat>)
    ensures |tids| == |gifts| && forall i: nat :: i < |tids| ==> tids[i] == gifts[i].to
  {
    seq(|gifts|, i requires 0 <= i < |gifts| => gifts[i].to)
  }

  ghost function Advance<T>(h: History<T>, e: Event<T>, capacity: nat): History<T> {
    var gifts := Given(h.s, e);
    History(
      Step(h.s, e, capacity),
      h.offered + if e.Offer? then [e.x] else [],
      h.asked + if e.Ask? then [e.tid] else [],
      h.given + Things(gifts),
      h.givenTo + Takers(gifts))
  }

  lemma GiftsSplit<T>(a: seq<Gift<T>>, b: seq<Gift<T>>)
    ensures Things(a + b) == Things(a) + Things(b) && Takers(a + b) == Takers(a) + Takers(b)
  {
  }

  ghost function Run<T>(events: seq<Event<T>>, capacity: nat): History<T> {
    if events == [] then Start() else Advance(Run(events[..|events| - 1], capacity), events[|events| - 1], capacity)
  }

  lemma RunMore<T>(events: seq<Event<T>>, e: Event<T>, capacity: nat)
    ensures var h, h' := Run(events, capacity), Run(events + [e], capacity);
      && h'.s == Step(h.s, e, capacity)
      && h'.given == h.given + Things(Given(h.s, e)) && h'.givenTo == h.givenTo + Takers(Given(h.s, e))
  {
    assert (events + [e])[..|events|] == events;
  }

  ghost predicate Possible<T>(events: seq<Event<T>>, capacity: nat) {
    events == [] ||
    (Possible(events[..|events| - 1], capacity) &&
     Acceptable(Run(events[..|events| - 1], capacity).s, events[|events| - 1]))
  }

  /** No work met a full ring. */
  ghost predicate Lossless<T>(events: seq<Event<T>>, capacity: nat) {
    events == [] ||
    (Lossless(events[..|events| - 1], capacity) &&
     var s, e := Run(events[..|events| - 1], capacity).s, events[|events| - 1];
     (e.Offer? && s.waiting == 0 ==> |s.queue| < capacity))
  }

  /** A blocked worker means that no work is queued, whoever asks how often. */
  ghost predicate Idle<T>(s: State<T>) {
    s.waiting != 0 ==> s.queue == []
  }

  lemma {:induction false} AlwaysIdle<T>(events: seq<Event<T>>, capacity: nat)
    ensures Idle(Run(events, capacity).s)
  {
    if events != [] { AlwaysIdle(events[..|events| - 1], capacity); }
  }

  /** Every worker that asked, but for the blocked one, was given one thing, in turn. */
  ghost predicate Orderly<T>(h: History<T>, capacity: nat) {
    && Idle(h.s) && |h.s.queue| <= capacity && |h.given| == |h.givenTo|
    && h.asked == h.givenTo + if h.s.waiting != 0 then [h.s.waiting] else []
  }

  lemma {:induction false} AlwaysOrderly<T>(events: seq<Event<T>>, capacity: nat)
    requires Possible(events, capacity) && capacity > 0
    ensures Orderly(Run(events, capacity), capacity)
  {
    if events != [] {
      AlwaysOrderly(events[..|events| - 1], capacity);
      StepKeepsOrderly(Run(events[..|events| - 1], capacity), events[|events| - 1], capacity);
    }
  }

  lemma StepKeepsOrderly<T>(h: History<T>, e: Event<T>, capacity: nat)
    requires Orderly(h, capacity) && Acceptable(h.s, e) && capacity > 0
    ensures Orderly(Advance(h, e, capacity), capacity)
  {
  }

  ghost predicate NothingLost<T>(h: History<T>) {
    h.offered == h.given + h.s.queue
  }

  ghost predicate SomethingLost<T>(h: History<T>) {
    |h.offered| > |h.given| + |h.s.queue|
  }

  lemma LossStep<T>(h: History<T>, e: Event<T>, capacity: nat)
    requires Idle(h.s) && capacity > 0
    ensures var fits := e.Offer? && h.s.waiting == 0 ==> |h.s.queue| < capacity;
      && (NothingLost(h) && fits ==> NothingLost(Advance(h, e, capacity)))
      && (NothingLost(h) && !fits ==> SomethingLost(Advance(h, e, capacity)))
      && (SomethingLost(h) ==> SomethingLost(Advance(h, e, capacity)))
  {
  }

  /** What was given, then what is queued, is what was offered, in order and without loss or
      repetition, exactly if nothing met a full ring. */
  lemma {:induction false} NothingLostIff<T>(events: seq<Event<T>>, capacity: nat)
    requires capacity > 0
    ensures NothingLost(Run(events, capacity)) <==> Lossless(events, capacity)
    ensures Lossless(events, capacity) || SomethingLost(Run(events, capacity))
  {
    if events != [] {
      var before := events[..|events| - 1];
      NothingLostIff(before, capacity);
      AlwaysIdle(before, capacity);
      LossStep(Run(before, capacity), events[|events| - 1], capacity);
    }
  }

  /** The k-th worker to ask is given the k-th piece of work; either all work has been given
      or every worker has some. */
  lemma KthWorkerGetsKthWork<T>(events: seq<Event<T>>, capacity: nat, k: nat)
    requires Possible(events, capacity) && capacity > 0 && Lossless(events, capacity)
    requires k < |Run(events, capacity).given|
    ensures var h := Run(events, capacity);
      && |h.given| == |h.givenTo| <= |h.asked| && |h.given| <= |h.offered|
      && h.given[k] == h.offered[k] && h.givenTo[k] == h.asked[k]
      && (|h.given| == |h.offered| || |h.given| == |h.asked|)
  {
    AlwaysOrderly(events, capacity);
    NothingLostIff(events, capacity);
  }
}
