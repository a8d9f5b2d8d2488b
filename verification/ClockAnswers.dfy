/** Whom the clock server answers: the replies it sends, over every run. */
module ClockAnswers {
  import opened Common
  import opened DelayedQueue
  import opened ClockServer

  // ----- one request -----

  /** A notification is answered, and then, in order, each task whose delay left the list; these
      are at the front, and all of them are due. */
  lemma NotificationWakes(s: State, r: Request) returns (left: seq<Entry>)
    requires r.Notification?
    ensures s.pending == left + Step(s, r).pending
    ensures forall i: nat :: i < |left| ==> left[i].finalTick <= Step(s, r).tick
    ensures var replies := Replies(s, r);
      && |replies| == 1 + |left| && replies[0] == Empty(r.tid)
      && forall i: nat :: i < |left| ==> replies[i + 1] == Empty(left[i].tid)
  {
    left := s.pending[..Due(s.pending, NextTick(s.tick))];
  }

  /** Time is answered at once, with the number of notifications so far as a word. */
  lemma TimeIsAnswered(requests: seq<Request>, tid: nat)
    ensures Replies(Run(requests), Time(tid)) == [Tick(tid, Notifications(requests) % WORD)]
  {
    TickCounts(requests);
  }

  // ----- every run -----

  function Tids(entries: seq<Entry>): (tids: seq<nat>)
    ensures |tids| == |entries| && forall i: nat :: i < |tids| ==> tids[i] == entries[i].tid
  {
    seq(|entries|, i requires 0 <= i < |entries| => entries[i].tid)
  }

  /** The tasks that are woken by these replies, in order; a tick is the answer to Time. */
  function Woken(replies: seq<Reply>): seq<nat> {
    if replies == [] then []
    else
      var last := replies[|replies| - 1];
      Woken(replies[..|replies| - 1]) + if last.Empty? then [last.tid] else []
  }

  lemma WokenMore(replies: seq<Reply>, r: Reply)
    ensures Woken(replies + [r]) == Woken(replies) + if r.Empty? then [r.tid] else []
  {
    assert (replies + [r])[..|replies|] == replies;
  }

  lemma {:induction false} WokenBoth(a: seq<Reply>, b: seq<Reply>)
    ensures Woken(a + b) == Woken(a) + Woken(b)
  {
    if b == [] {
      assert a + b == a;
    } else {
      WokenBoth(a, b[..|b| - 1]);
      WokenMore(a + b[..|b| - 1], b[|b| - 1]);
      assert a + b == (a + b[..|b| - 1]) + [b[|b| - 1]];
    }
  }

  lemma {:induction false} WokenAre(replies: seq<Reply>, tids: seq<nat>)
    requires |replies| == |tids| && forall i: nat :: i < |tids| ==> replies[i] == Empty(tids[i])
    ensures Woken(replies) == tids
  {
    if replies != [] {
      WokenAre(replies[..|replies| - 1], tids[..|tids| - 1]);
    }
  }

  lemma TakenOut<T>(s: seq<T>, j: nat)
    requires j < |s|
    ensures multiset(s) == multiset(s[..j] + s[j + 1..]) + multiset{s[j]}
  {
    assert s == s[..j] + [s[j]] + s[j + 1..];
  }

  lemma RestsAgree<T>(a: multiset<T>, b: multiset<T>, x: T)
    requires a + multiset{x} == b + multiset{x}
    ensures a == b
  {
    assert (a + multiset{x}) - multiset{x} == a && (b + multiset{x}) - multiset{x} == b;
  }

  function Without<T>(s: seq<T>, j: nat): seq<T>
    requires j < |s|
  {
    s[..j] + s[j + 1..]
  }

  lemma OneOut(es: seq<Entry>, j: nat)
    requires j < |es|
    ensures multiset(es) == multiset(Without(es, j)) + multiset{es[j]}
    ensures multiset(Tids(es)) == multiset(Tids(Without(es, j))) + multiset{es[j].tid}
  {
    TakenOut(es, j);
    TakenOut(Tids(es), j);
    assert Tids(Without(es, j)) == Without(Tids(es), j);
  }

  lemma {:induction false} SameTids(a: seq<Entry>, b: seq<Entry>)
    requires multiset(a) == multiset(b)
    ensures multiset(Tids(a)) == multiset(Tids(b))
    decreases |a|
  {
    hide Tids, Without;
    if a == [] {
      assert |b| == |multiset(b)| == |multiset(a)| == 0;
    } else {
      assert a[0] in multiset(b);
      var j: nat :| j < |b| && b[j] == a[0];
      OneOut(a, 0);
      OneOut(b, j);
      RestsAgree(multiset(Without(a, 0)), multiset(Without(b, j)), a[0]);
      assert |Without(a, 0)| < |a| by { Shorter(a, 0); }
      SameTids(Without(a, 0), Without(b, j));
    }
  }

  lemma Shorter<T>(s: seq<T>, j: nat)
    requires j < |s|
    ensures |Without(s, j)| < |s|
  {
  }

  /** The task that sends a request which is answered by an empty reply, sooner or later. */
  function Caller(r: Request): seq<nat> {
    if r.Time? then [] else [r.tid]
  }

  /** One request: its caller, if it waits for an empty reply, is woken or among the delayed, and
      of these each is woken or stays. */
  lemma StepWakes(s: State, r: Request)
    ensures multiset(Woken(Replies(s, r))) + multiset(Tids(Step(s, r).pending)) ==
      multiset(Tids(s.pending)) + multiset(Caller(r))
  {
    hide Step, Replies, Tids, Woken;
    if r.Notification? {
      var left := NotificationWakes(s, r);
      WokenAre(Replies(s, r), [r.tid] + Tids(left));
      TidsSplit(left, Step(s, r).pending);
      assert multiset([r.tid] + Tids(left)) == multiset([r.tid]) + multiset(Tids(left));
    } else {
      NothingWoken(s, r);
    }
  }

  lemma TidsSplit(a: seq<Entry>, b: seq<Entry>)
    ensures multiset(Tids(a + b)) == multiset(Tids(a)) + multiset(Tids(b))
  {
    assert Tids(a + b) == Tids(a) + Tids(b);
  }

  /** Any other request wakes no one; a delay makes its caller one of the delayed. */
  lemma NothingWoken(s: State, r: Request)
    requires !r.Notification?
    ensures Woken(Replies(s, r)) == []
    ensures multiset(Tids(Step(s, r).pending)) == multiset(Tids(s.pending)) + multiset(Caller(r))
  {
    hide Insert, Tids;
    if !r.Time? {
      var e := Entry(r.tid, Deadline(s.tick, r));
      InsertAddsOne(s.pending, e);
      SameTids(Insert(s.pending, e), s.pending + [e]);
      TidsSplit(s.pending, [e]);
      assert Tids([e]) == [r.tid];
    }
  }

  /** All replies of a run, in order. */
  ghost function AllReplies(requests: seq<Request>): seq<Reply> {
    if requests == [] then []
    else AllReplies(requests[..|requests| - 1]) + Replies(Run(requests[..|requests| - 1]), requests[|requests| - 1])
  }

  ghost function Callers(requests: seq<Request>): seq<nat> {
    if requests == [] then [] else Callers(requests[..|requests| - 1]) + Caller(requests[|requests| - 1])
  }

  /** Over every run: each task gets one empty reply for each of its notifications and delays, but
      for those delays that are still pending. */
  lemma {:induction false} EachCallerIsWoken(requests: seq<Request>)
    ensures multiset(Woken(AllReplies(requests))) + multiset(Tids(Run(requests).pending)) ==
      multiset(Callers(requests))
  {
    hide Step, Replies, Tids, Caller;
    if requests == [] {
      assert Tids([]) == [];
    } else {
      var before, r := requests[..|requests| - 1], requests[|requests| - 1];
      var s := Run(before);
      EachCallerIsWoken(before);
      StepWakes(s, r);
      WokenBoth(AllReplies(before), Replies(s, r));
      var told, more := multiset(Woken(AllReplies(before))), multiset(Woken(Replies(s, r)));
      assert multiset(Woken(AllReplies(requests))) == told + more;
      assert multiset(Callers(requests)) == multiset(Callers(before)) + multiset(Caller(r));
      assert (told + more) + multiset(Tids(Step(s, r).pending)) == told + (more + multiset(Tids(Step(s, r).pending)));
      assert told + (multiset(Tids(s.pending)) + multiset(Caller(r))) ==
        (told + multiset(Tids(s.pending))) + multiset(Caller(r));
    }
  }
}
