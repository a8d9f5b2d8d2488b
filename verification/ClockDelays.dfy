/** How long delays last: when the clock server ends one late, and when too early. */
module ClockDelays {
  import opened Common
  import opened DelayedQueue
  import opened ClockServer

  /** The state k notifications later. */
  ghost function After(s: State, k: nat): State {
    if k == 0 then s else Step(After(s, k - 1), Notification(0))
  }

  ghost predicate InWords(s: State) {
    s.tick < WORD && forall i: nat :: i < |s.pending| ==> s.pending[i].finalTick < WORD
  }

  ghost predicate Prompt(s: State) {
    forall i: nat :: !Late(s, i)
  }

  /** Whatever notifications follow, none leaves a delay that is due. */
  ghost predicate NeverLate(s: State) {
    forall k: nat :: k > 0 ==> Prompt(After(s, k))
  }

  /** No delay stands behind a later one, unless the next tick ends them both. */
  ghost predicate InTime(s: State) {
    forall i: nat, j: nat :: i < j < |s.pending| ==>
      s.pending[i].finalTick <= s.pending[j].finalTick || s.pending[i].finalTick <= NextTick(s.tick)
  }

  // ----- late delays -----

  /** k notifications take off a front of the list; what they take off was due by then. */
  lemma {:induction false} TakenOff(s: State, k: nat) returns (c: nat)
    requires InWords(s) && k > 0 && NextTick(s.tick) + k - 1 < WORD
    ensures c <= |s.pending| && After(s, k) == State(NextTick(s.tick) + k - 1, s.pending[c..])
    ensures forall i: nat :: i < c ==> s.pending[i].finalTick <= NextTick(s.tick) + k - 1
  {
    hide Due, NextTick;
    NextTickIs(s.tick);
    if k == 1 {
      assert After(s, 0) == s;
      c := Due(s.pending, NextTick(s.tick));
    } else {
      var b := TakenOff(s, k - 1);
      c := TakenOnce(s, After(s, k - 1), b);
    }
  }

  lemma NextTickIs(tick: nat)
    requires tick < WORD
    ensures NextTick(tick) == if tick == WORD - 1 then 0 else tick + 1
  {
  }

  lemma TakenOnce(s: State, t: State, b: nat) returns (c: nat)
    requires b <= |s.pending| && t.pending == s.pending[b..] && t.tick + 1 < WORD
    requires forall i: nat :: i < b ==> s.pending[i].finalTick <= t.tick
    ensures c <= |s.pending| && Step(t, Notification(0)) == State(t.tick + 1, s.pending[c..])
    ensures forall i: nat :: i < c ==> s.pending[i].finalTick <= t.tick + 1
  {
    hide Due, NextTick;
    NextTickIs(t.tick);
    c := b + Due(t.pending, t.tick + 1);
    assert t.pending[c - b..] == s.pending[c..];
    forall i: nat | i < c ensures s.pending[i].finalTick <= t.tick + 1 {
      if i >= b { assert t.pending[i - b] == s.pending[i]; }
    }
  }

  lemma InTimeStays(s: State)
    requires InWords(s) && InTime(s)
    ensures var t := Step(s, Notification(0)); InWords(t) && InTime(t) && Prompt(t)
  {
    var t, c := Step(s, Notification(0)), Due(s.pending, NextTick(s.tick));
    forall i: nat | i < |t.pending| ensures t.pending[i].finalTick > t.tick {
      assert t.pending[i] == s.pending[c + i];
    }
    forall i: nat, j: nat | i < j < |t.pending| ensures t.pending[i].finalTick <= t.pending[j].finalTick {
      assert t.pending[i] == s.pending[c + i] && t.pending[j] == s.pending[c + j];
    }
  }

  lemma {:induction false} InTimeIsPrompt(s: State, k: nat)
    requires InWords(s) && InTime(s)
    ensures InWords(After(s, k)) && InTime(After(s, k)) && (k > 0 ==> Prompt(After(s, k)))
  {
    hide InTime, InWords, Prompt, Step;
    if k > 0 {
      InTimeIsPrompt(s, k - 1);
      InTimeStays(After(s, k - 1));
    }
  }

  /** A delay that stands behind a later one is still pending when it is due. */
  lemma BehindIsLate(s: State, i: nat, j: nat)
    requires InWords(s) && i < j < |s.pending|
    requires s.pending[i].finalTick > s.pending[j].finalTick && s.pending[i].finalTick > NextTick(s.tick)
    ensures !NeverLate(s)
  {
    hide Step, After;
    var n, due := NextTick(s.tick), s.pending[j].finalTick;
    var k := if due > n then due - n + 1 else 1;
    var c := TakenOff(s, k);
    var t := After(s, k);
    assert i >= c && t.pending[j - c] == s.pending[j] && Late(t, j - c);
    assert !Prompt(t);
  }

  /** No delay is ever late exactly if none stands behind a later one. */
  lemma NeverLateIff(s: State)
    requires InWords(s)
    ensures NeverLate(s) <==> InTime(s)
  {
    hide InWords, Step, After, Prompt;
    if InTime(s) {
      forall k: nat | k > 0 ensures Prompt(After(s, k)) { InTimeIsPrompt(s, k); }
    } else {
      var i: nat, j: nat :| i < j < |s.pending| && s.pending[i].finalTick > s.pending[j].finalTick
        && s.pending[i].finalTick > NextTick(s.tick);
      BehindIsLate(s, i, j);
    }
  }

  ghost predicate AllAhead(s: State) {
    forall i: nat :: i < |s.pending| ==> s.pending[i].finalTick > s.tick
  }

  /** While all deadlines lie ahead that means: exactly if the list is sorted. */
  lemma NeverLateIffSorted(s: State)
    requires InWords(s) && AllAhead(s)
    ensures NeverLate(s) <==> Sorted(s.pending)
  {
    NeverLateIff(s);
    hide NeverLate;
    forall i: nat | i < |s.pending| ensures s.pending[i].finalTick >= NextTick(s.tick) {
      assert s.pending[i].finalTick > s.tick;
    }
    assert InTime(s) <==> Sorted(s.pending);
  }

  /** The new deadline is no new maximum, or all deadlines so far are the same, or the last one ends
      at the next tick. */
  predicate Timely(s: State, r: Request) {
    (r.Delay? || r.DelayUntil?) && s.pending != [] ==>
      var last := s.pending[|s.pending| - 1].finalTick;
      Deadline(s.tick, r) <= last || s.pending[0].finalTick == last || last <= NextTick(s.tick)
  }

  /** A newcomer that goes before some other delay stays in time. */
  lemma InsideIsInTime(s: State, r: Request)
    requires (r.Delay? || r.DelayUntil?) && InTime(s)
    requires FirstFrom(s.pending, Deadline(s.tick, r)) < |s.pending|
    ensures InTime(Step(s, r)) && Timely(s, r)
  {
    hide FirstFrom, Insert, Due, NextTick;
    var es, e := s.pending, Entry(r.tid, Deadline(s.tick, r));
    var p, t := FirstFrom(es, e.finalTick), Step(s, r);
    InsertInside(es, e, p);
    forall i: nat, j: nat | i < j < |t.pending|
      ensures t.pending[i].finalTick <= t.pending[j].finalTick || t.pending[i].finalTick <= NextTick(t.tick)
    {
      if i > p { assert t.pending[i - 1 + 1] == es[i - 1]; }
      if j > p { assert t.pending[j - 1 + 1] == es[j - 1]; }
    }
  }

  /** A new maximum, which moves the last delay to the front, is in time exactly if it is timely. */
  lemma MaximumIsInTimeIff(s: State, r: Request)
    requires (r.Delay? || r.DelayUntil?) && InTime(s)
    requires FirstFrom(s.pending, Deadline(s.tick, r)) == |s.pending| > 0
    ensures InTime(Step(s, r)) <==> Timely(s, r)
  {
    hide FirstFrom, Insert, Due, NextTick;
    var es, e, n := s.pending, Entry(r.tid, Deadline(s.tick, r)), |s.pending|;
    var t := Step(s, r);
    InsertMaximum(es, e);
    assert t.pending[0] == es[n - 1] && t.pending[n] == e && e.finalTick > es[n - 1].finalTick;
    if Timely(s, r) {
      forall i: nat, j: nat | i < j < |t.pending|
        ensures t.pending[i].finalTick <= t.pending[j].finalTick || t.pending[i].finalTick <= NextTick(t.tick)
      {
        if i > 0 { assert t.pending[i] == es[i - 1]; }
        if j < n { assert t.pending[j] == es[j - 1]; }
      }
    } else {
      assert n > 1 && t.pending[1] == es[0];
    }
  }

  lemma StepInWords(s: State, r: Request)
    requires InWords(s)
    ensures InWords(Step(s, r))
  {
    hide FirstFrom, Due, Insert;
    if r.Delay? || r.DelayUntil? {
      var e, t := Entry(r.tid, Deadline(s.tick, r)), Step(s, r);
      InsertAddsOne(s.pending, e);
      forall i: nat | i < |t.pending| ensures t.pending[i].finalTick < WORD {
        assert t.pending[i] in multiset(t.pending);
        assert t.pending[i] in s.pending || t.pending[i] == e;
      }
    }
  }

  lemma StepInTimeIff(s: State, r: Request)
    requires InWords(s) && InTime(s)
    ensures InTime(Step(s, r)) <==> Timely(s, r)
  {
    hide FirstFrom, Insert, InWords;
    match r
    case Notification(_) =>
      InTimeStays(s);
      assert Step(s, r) == Step(s, Notification(0));
    case Time(_) =>
    case _ =>
      if s.pending == [] {
        InsertFirst(Entry(r.tid, Deadline(s.tick, r)));
      } else if FirstFrom(s.pending, Deadline(s.tick, r)) < |s.pending| {
        InsideIsInTime(s, r);
      } else {
        MaximumIsInTimeIff(s, r);
      }
  }

  /** Exactly which request makes some delay late, where none was: one with a new maximum, unless
      the deadlines so far are all the same or the last one ends at the next tick. */
  lemma RequestMakesLateIff(s: State, r: Request)
    requires InWords(s) && NeverLate(s)
    ensures NeverLate(Step(s, r)) <==> Timely(s, r)
  {
    hide NeverLate, InWords, InTime, Step, Timely;
    NeverLateIff(s);
    StepInWords(s, r);
    NeverLateIff(Step(s, r));
    StepInTimeIff(s, r);
  }

  ghost predicate AllTimely(requests: seq<Request>) {
    requests == [] ||
    (AllTimely(requests[..|requests| - 1]) && Timely(Run(requests[..|requests| - 1]), requests[|requests| - 1]))
  }

  lemma {:induction false} RunInWords(requests: seq<Request>)
    ensures InWords(Run(requests))
  {
    hide Step;
    if requests != [] {
      RunInWords(requests[..|requests| - 1]);
      StepInWords(Run(requests[..|requests| - 1]), requests[|requests| - 1]);
    }
  }

  lemma NothingIsLate()
    ensures NeverLate(Run([]))
  {
    RunInWords([]);
    NeverLateIff(Run([]));
  }

  ghost predicate NeverLateUpTo(requests: seq<Request>, n: nat)
    requires n <= |requests|
  {
    forall i: nat :: i <= n ==> NeverLate(Run(requests[..i]))
  }

  /** Over every run: at no point is some delay bound to be late exactly if every request was
      timely when it came. */
  lemma {:induction false} RunNeverLateIff(requests: seq<Request>, n: nat)
    requires n <= |requests|
    ensures NeverLateUpTo(requests, n) <==> AllTimely(requests[..n])
  {
    hide NeverLate, Run, Timely, Step, InWords;
    if n == 0 {
      NothingIsLate();
      assert requests[..0] == [];
    } else {
      var before := requests[..n - 1];
      RunNeverLateIff(requests, n - 1);
      RunStep(requests, n - 1);
      RunInWords(before);
      assert requests[..n][..n - 1] == before;
      assert NeverLateUpTo(requests, n) <==> NeverLateUpTo(requests, n - 1) && NeverLate(Run(requests[..n]));
      if NeverLateUpTo(requests, n - 1) { RequestMakesLateIff(Run(before), requests[n - 1]); }
    }
  }

  /** In a run of timely requests every delay ends at the first notification at which it is due. */
  lemma TimelyRunIsPrompt(requests: seq<Request>)
    requires AllTimely(requests) && requests != [] && requests[|requests| - 1].Notification?
    ensures Prompt(Run(requests))
  {
    hide NeverLate, Timely, InWords;
    var n := |requests|;
    var s, r := Run(requests[..n - 1]), requests[n - 1];
    assert requests[..n] == requests && requests[..n - 1] == requests[..n][..n - 1];
    RunNeverLateIff(requests, n - 1);
    assert NeverLate(s);
    RunInWords(requests[..n - 1]);
    NeverLateIff(s);
    InTimeStays(s);
    assert Step(s, r) == Step(s, Notification(0));
  }

  // ----- early delays -----

  lemma Plus(a: nat, m: nat)
    ensures a % WORD + m < WORD ==> (a + m) % WORD == a % WORD + m
    ensures a % WORD + m >= WORD && m < WORD ==> (a + m) % WORD == a % WORD + m - WORD
  {
  }

  /** The promise of Delay does not meet the end of the 32-bit tick: it is for one tick at most, or
      is over before the tick wraps, or starts at the very last tick. */
  predicate ClearOfWrap(tick: nat, ticks: int) {
    ticks <= 1 || tick + ticks < WORD || tick == WORD - 1
  }

  /** The notifications from request i up to and with request j. */
  function NotificationsIn(requests: seq<Request>, i: nat, j: nat): int
    requires i <= j < |requests|
  {
    Notifications(requests[..j + 1]) - Notifications(requests[..i])
  }

  lemma {:induction false} NotificationsGrow(requests: seq<Request>, i: nat, j: nat)
    requires i <= j <= |requests|
    ensures Notifications(requests[..i]) <= Notifications(requests[..j])
  {
    if i < j {
      NotificationsGrow(requests, i, j - 1);
      assert requests[..j][..j - 1] == requests[..j - 1];
    }
  }

  ghost predicate Ends(requests: seq<Request>, j: nat, e: Entry)
    requires j < |requests|
  {
    var ended := Ended(Run(requests[..j]), requests[j]);
    exists a: nat :: a < |ended| && ended[a].entry == e
  }

  /** A delay asked for by request i and ended by request j has lasted at least as many
      notifications as it was asked for, if it was clear of the wrap. */
  lemma DelayLasts(requests: seq<Request>, i: nat, j: nat)
    requires i < j < |requests| && requests[i].Delay? && 0 <= requests[i].ticks < WORD
    requires var tick := Run(requests[..i]).tick;
      ClearOfWrap(tick, requests[i].ticks) && Ends(requests, j, Entry(requests[i].tid, Deadline(tick, requests[i])))
    ensures NotificationsIn(requests, i, j) >= requests[i].ticks
  {
    hide Ended, Run, Notifications, NextTick;
    var tick := Run(requests[..i]).tick;
    var e := Entry(requests[i].tid, Deadline(tick, requests[i]));
    TickCounts(requests[..i]);
    TickCounts(requests[..j + 1]);
    RunStep(requests, j);
    EndedFacts(Run(requests[..j]), requests[j], e);
    NotificationsGrow(requests, i, j);
    LastedBy(Notifications(requests[..i]), NotificationsIn(requests, i, j), requests[i].ticks);
  }

  lemma RunStep(requests: seq<Request>, j: nat)
    requires j < |requests|
    ensures Run(requests[..j + 1]) == Step(Run(requests[..j]), requests[j])
    ensures Notifications(requests[..j + 1]) ==
      Notifications(requests[..j]) + if requests[j].Notification? then 1 else 0
  {
    assert requests[..j + 1][..j] == requests[..j];
  }

  /** The deadline of n ticks is not reached before n notifications. */
  lemma LastedBy(before: nat, m: nat, n: nat)
    requires m > 0 && n < WORD && ClearOfWrap(before % WORD, n)
    requires (before + m) % WORD >= (n + before % WORD) % WORD
    ensures m >= n
  {
    Plus(before, m);
    Plus(before % WORD, n);
  }

  lemma EndedFacts(s: State, r: Request, e: Entry)
    requires exists a: nat :: a < |Ended(s, r)| && Ended(s, r)[a].entry == e
    ensures r.Notification? && e.finalTick <= NextTick(s.tick) == Step(s, r).tick
  {
  }

  /** Where a newcomer goes: everything in front of it is due no later than it, and everything else
      was there before. */
  lemma NewcomerAt(entries: seq<Entry>, e: Entry) returns (p: nat)
    ensures var r := Insert(entries, e);
      && |r| == |entries| + 1 && p < |r| && r[p] == e
      && (forall i: nat :: i < p ==> r[i].finalTick <= e.finalTick)
      && (forall i: nat :: i < |r| && i != p ==> r[i] in entries)
  {
    hide Insert, FirstFrom;
    var r := Insert(entries, e);
    p := FirstFrom(entries, e.finalTick);
    if p < |entries| {
      InsertInside(entries, e, p);
      forall i: nat | i < |r| && i != p ensures r[i] in entries {
        if i > p { assert r[i - 1 + 1] == entries[i - 1]; }
      }
    } else if entries == [] {
      InsertFirst(e);
    } else {
      InsertMaximum(entries, e);
    }
  }

  /** A delay lasts as many notifications as it was asked for exactly if it is clear of the wrap,
      whatever else is pending. */
  lemma DelayLastsIff(s: State, r: Request)
    requires InWords(s) && r.Delay? && 0 <= r.ticks < WORD && Acceptable(s, r)
    ensures (forall k: nat :: k < r.ticks ==> Entry(r.tid, Deadline(s.tick, r)) in After(Step(s, r), k).pending) <==>
      ClearOfWrap(s.tick, r.ticks)
  {
    hide Insert, After, Due;
    var e, t := Entry(r.tid, Deadline(s.tick, r)), Step(s, r);
    var p := NewcomerAt(s.pending, e);
    StepInWords(s, r);
    if ClearOfWrap(s.tick, r.ticks) {
      forall k: nat | k < r.ticks ensures e in After(t, k).pending { StillPending(t, e, p, r.ticks, k); }
    } else {
      EndsAtOnce(t, e, p, r.ticks);
      assert e !in After(t, 1).pending;
    }
  }

  lemma StillPending(t: State, e: Entry, p: nat, n: nat, k: nat)
    requires InWords(t) && p < |t.pending| && t.pending[p] == e
    requires n < WORD && e.finalTick == (n + t.tick) % WORD && ClearOfWrap(t.tick, n) && k < n
    ensures e in After(t, k).pending
  {
    hide Step, After, NextTick;
    if k > 0 {
      NextTickIs(t.tick);
      Plus(t.tick, n);
      var c := TakenOff(t, k);
      assert p >= c && t.pending[c..][p - c] == e;
    } else {
      AfterNone(t);
    }
  }

  lemma AfterNone(t: State)
    ensures After(t, 0) == t
  {
  }

  /** Past the wrap the newcomer is due at the next tick, with everything in front of it. */
  lemma EndsAtOnce(t: State, e: Entry, p: nat, n: nat)
    requires InWords(t) && p < |t.pending| && t.pending[p] == e
    requires forall i: nat :: i < p ==> t.pending[i].finalTick <= e.finalTick
    requires forall i: nat :: i < |t.pending| && i != p ==> t.pending[i].tid != e.tid
    requires n < WORD && e.finalTick == (n + t.tick) % WORD && !ClearOfWrap(t.tick, n)
    ensures e !in After(t, 1).pending
  {
    hide NextTick, Due;
    NextTickIs(t.tick);
    Plus(t.tick, n);
    AfterNone(t);
    var c := Due(t.pending, NextTick(t.tick));
    assert c > p;
    forall i: nat | i < |t.pending| - c ensures t.pending[c..][i] != e { assert t.pending[c..][i] == t.pending[c + i]; }
  }

  /** Delay(10) at five ticks before the wrap ends after one notification. */
  lemma DelayEndsEarly()
    ensures var s := State(WORD - 5, []);
      After(Step(s, Delay(1, 10)), 1).pending == [] && Deadline(s.tick, Delay(1, 10)) == 5
  {
    var s := State(WORD - 5, []);
    InsertFirst(Entry(1, 5));
    var t := Step(s, Delay(1, 10));
    assert t == State(WORD - 5, [Entry(1, 5)]) && After(t, 0) == t;
  }
}
