/** The delayed tasks of the clock server (user/clockserver.c): one circular list, linked through
    `next`, whose last task is `tail`. */
module DelayedQueue {

  const MAX_DELAYED_TASKS: nat := 128
  const NULL: int := -1

  datatype DelayedTask = DelayedTask(finalTick: nat, next: int)
  datatype Entry = Entry(tid: nat, finalTick: nat)

  // ----- the list as a sequence -----

  /** The first entry that is due at `tick` or later. */
  function FirstFrom(entries: seq<Entry>, tick: nat): (p: nat)
    ensures p <= |entries| && (p < |entries| ==> entries[p].finalTick >= tick)
    ensures forall j: nat :: j < p ==> entries[j].finalTick < tick
  {
    if entries == [] || entries[0].finalTick >= tick then 0 else 1 + FirstFrom(entries[1..], tick)
  }

  function InsertAt<T>(s: seq<T>, p: nat, x: T): (r: seq<T>)
    requires p <= |s|
    ensures |r| == |s| + 1
    ensures forall i: nat :: i < |r| ==> r[i] == if i < p then s[i] else if i == p then x else s[i - 1]
  {
    s[..p] + [x] + s[p..]
  }

  /** Before the first entry that is due no sooner. A new maximum becomes the tail, and the old
      tail moves to the front. */
  function Insert(entries: seq<Entry>, e: Entry): seq<Entry> {
    var p := FirstFrom(entries, e.finalTick);
    if p < |entries| || entries == [] then InsertAt(entries, p, e)
    else [entries[p - 1]] + entries[..p - 1] + [e]
  }

  /** How many entries at the front are due. */
  function Due(entries: seq<Entry>, tick: nat): (k: nat)
    ensures k <= |entries| && (k < |entries| ==> entries[k].finalTick > tick)
    ensures forall j: nat :: j < k ==> entries[j].finalTick <= tick
  {
    if entries == [] || entries[0].finalTick > tick then 0 else 1 + Due(entries[1..], tick)
  }

  ghost predicate Sorted(entries: seq<Entry>) {
    forall i, j :: 0 <= i < j < |entries| ==> entries[i].finalTick <= entries[j].finalTick
  }

  lemma InsertAddsOne(entries: seq<Entry>, e: Entry)
    ensures multiset(Insert(entries, e)) == multiset(entries) + multiset{e}
  {
    var p := FirstFrom(entries, e.finalTick);
    assert entries == entries[..p] + entries[p..];
    if p == |entries| > 0 { assert entries == entries[..p - 1] + [entries[p - 1]]; }
  }

  /** A sorted list stays sorted exactly if the newcomer is no new maximum, or all deadlines so
      far are the same. */
  lemma InsertKeepsSortedIff(entries: seq<Entry>, e: Entry)
    requires Sorted(entries)
    ensures Sorted(Insert(entries, e)) <==>
      entries == [] || e.finalTick <= entries[|entries| - 1].finalTick
      || entries[0].finalTick == entries[|entries| - 1].finalTick
  {
    var p, n, r := FirstFrom(entries, e.finalTick), |entries|, Insert(entries, e);
    if p == n > 1 {
      assert r[0] == entries[n - 1] && r[1] == entries[0];
      assert forall j :: 1 <= j < n ==> r[j] == entries[j - 1];
    }
  }

  lemma InsertInside(entries: seq<Entry>, e: Entry, p: nat)
    requires FirstFrom(entries, e.finalTick) == p < |entries|
    ensures var r := Insert(entries, e);
      |r| == |entries| + 1 && r[p] == e
      && (forall i: nat :: i < p ==> r[i] == entries[i])
      && (forall i: nat :: p <= i < |entries| ==> r[i + 1] == entries[i])
  {
    hide FirstFrom;
  }

  lemma InsertMaximum(entries: seq<Entry>, e: Entry)
    requires FirstFrom(entries, e.finalTick) == |entries| > 0
    ensures var r, n := Insert(entries, e), |entries|;
      |r| == n + 1 && forall i: nat :: i < |r| ==>
        r[i] == if i == 0 then entries[n - 1] else if i < n then entries[i - 1] else e
  {
    hide FirstFrom;
  }

  // ----- the links -----

  /** `ring` lists the tasks from the one after the tail round to the tail. */
  ghost predicate IsRing(tasks: seq<DelayedTask>, ring: seq<nat>, tail: int) {
    && (forall i: nat :: i < |ring| ==> ring[i] < |tasks|)
    && (forall i: nat, j: nat :: i < j < |ring| ==> ring[i] != ring[j])
    && (forall i: nat :: i < |ring| - 1 ==> tasks[ring[i]].next == ring[i + 1])
    && (if ring == [] then tail == NULL else tail == ring[|ring| - 1] && tasks[tail].next == ring[0])
  }

  ghost function Entries(tasks: seq<DelayedTask>, ring: seq<nat>): (es: seq<Entry>)
    requires forall i: nat :: i < |ring| ==> ring[i] < |tasks|
    ensures |es| == |ring| && forall i: nat :: i < |ring| ==> es[i] == Entry(ring[i], tasks[ring[i]].finalTick)
  {
    seq(|ring|, i requires 0 <= i < |ring| => Entry(ring[i], tasks[ring[i]].finalTick))
  }

  ghost function Before(ring: seq<nat>, p: nat): nat
    requires p < |ring|
  {
    if p == 0 then ring[|ring| - 1] else ring[p - 1]
  }

  /** The tasks once tid stands between prev and the one that followed it. */
  function Linked(tasks: seq<DelayedTask>, tid: nat, tick: nat, prev: nat): (linked: seq<DelayedTask>)
    requires tid < |tasks| && prev < |tasks| && prev != tid
    ensures |linked| == |tasks|
    ensures linked[tid] == DelayedTask(tick, tasks[prev].next) && linked[prev] == tasks[prev].(next := tid)
    ensures forall k: nat :: k < |tasks| && k != tid && k != prev ==> linked[k] == tasks[k]
  {
    tasks[tid := DelayedTask(tick, tasks[prev].next)][prev := tasks[prev].(next := tid)]
  }

  lemma RingStep(tasks: seq<DelayedTask>, ring: seq<nat>, tail: int, p: nat)
    requires IsRing(tasks, ring, tail) && p < |ring|
    ensures var prev := Before(ring, p);
      prev < |tasks| && tasks[prev].next == ring[p] && prev in ring
      && forall i: nat :: i < |ring| ==> (ring[i] == prev <==> i == if p == 0 then |ring| - 1 else p - 1)
  {
  }

  lemma NextAfterLink(tasks: seq<DelayedTask>, ring: seq<nat>, tail: int, tid: nat, tick: nat, p: nat, i: nat)
    requires IsRing(tasks, ring, tail) && tid < |tasks| && tid !in ring && p < |ring| && i <= |ring|
    ensures var r, prev := InsertAt(ring, p, tid), Before(ring, p);
      prev < |tasks| && prev != tid && r[i] < |tasks| &&
      var linked := Linked(tasks, tid, tick, prev);
      linked[r[i]].next == (if i < |ring| then r[i + 1] else r[0])
      && linked[r[i]].finalTick == if i == p then tick else tasks[r[i]].finalTick
  {
    hide Linked, Before;
    RingStep(tasks, ring, tail, p);
    var r := InsertAt(ring, p, tid);
    if i != p {
      var k := if i < p then i else i - 1;
      assert r[i] == ring[k] && tasks[ring[k]].next == if k == |ring| - 1 then ring[0] else ring[k + 1];
    }
  }

  /** The tail stays the tail when a task is linked in before position p. */
  lemma RingBefore(tasks: seq<DelayedTask>, ring: seq<nat>, tail: int, tid: nat, tick: nat, p: nat)
    requires IsRing(tasks, ring, tail) && tid < |tasks| && tid !in ring && p < |ring|
    ensures var prev, r := Before(ring, p), InsertAt(ring, p, tid);
      prev < |tasks| && prev != tid && IsRing(Linked(tasks, tid, tick, prev), r, tail)
  {
    hide Linked, Before;
    RingStep(tasks, ring, tail, p);
    var r := InsertAt(ring, p, tid);
    forall i: nat | i < |r|
      ensures r[i] < |tasks| &&
        Linked(tasks, tid, tick, Before(ring, p))[r[i]].next == if i < |ring| then r[i + 1] else r[0]
    {
      NextAfterLink(tasks, ring, tail, tid, tick, p, i);
    }
    forall i: nat, j: nat | i < j < |r| ensures r[i] != r[j] {}
  }

  /** Linking before the old tail and moving the tail on to the newcomer: the same circle, read
      from another start. */
  lemma TurnRing(tasks: seq<DelayedTask>, ring: seq<nat>, tail: int)
    requires IsRing(tasks, ring, tail) && |ring| > 1
    ensures var last := |ring| - 1;
      IsRing(tasks, [ring[last]] + ring[..last], ring[last - 1])
  {
    var last := |ring| - 1;
    var r := [ring[last]] + ring[..last];
    assert forall i: nat :: i < |r| ==> r[i] == if i == 0 then ring[last] else ring[i - 1];
    forall i: nat, j: nat | i < j < |r| ensures r[i] != r[j] {}
  }

  lemma EntriesAre(tasks: seq<DelayedTask>, ring: seq<nat>, es: seq<Entry>)
    requires forall i: nat :: i < |ring| ==> ring[i] < |tasks|
    requires |es| == |ring| && forall i: nat :: i < |ring| ==> es[i] == Entry(ring[i], tasks[ring[i]].finalTick)
    ensures Entries(tasks, ring) == es
  {
  }

  /** Linking a task in before the first one due no sooner. */
  lemma LinkBefore(tasks: seq<DelayedTask>, ring: seq<nat>, tail: int, tid: nat, tick: nat, p: nat)
    requires IsRing(tasks, ring, tail) && tid < |tasks| && tid !in ring && p < |ring|
    requires FirstFrom(Entries(tasks, ring), tick) == p
    ensures var prev, r := Before(ring, p), InsertAt(ring, p, tid);
      prev < |tasks| && prev != tid && IsRing(Linked(tasks, tid, tick, prev), r, tail)
      && Entries(Linked(tasks, tid, tick, prev), r) == Insert(Entries(tasks, ring), Entry(tid, tick))
  {
    hide Linked, Before, Insert, FirstFrom, IsRing;
    RingBounds(tasks, ring, tail);
    RingBefore(tasks, ring, tail, tid, tick, p);
    InsertInside(Entries(tasks, ring), Entry(tid, tick), p);
    var r, linked := InsertAt(ring, p, tid), Linked(tasks, tid, tick, Before(ring, p));
    var es := Insert(Entries(tasks, ring), Entry(tid, tick));
    forall i: nat | i < |r| ensures r[i] < |tasks| && es[i] == Entry(r[i], linked[r[i]].finalTick) {
      NextAfterLink(tasks, ring, tail, tid, tick, p, i);
      if i < p {
        assert r[i] == ring[i] && es[i] == Entries(tasks, ring)[i];
      } else if i > p {
        assert r[i] == ring[i - 1] && es[i - 1 + 1] == Entries(tasks, ring)[i - 1];
      }
    }
    EntriesAre(linked, r, es);
  }

  /** Linking a new maximum in before the tail and making it the tail. */
  lemma LinkAsTail(tasks: seq<DelayedTask>, ring: seq<nat>, tail: int, tid: nat, tick: nat)
    requires IsRing(tasks, ring, tail) && tid < |tasks| && tid !in ring && ring != []
    requires FirstFrom(Entries(tasks, ring), tick) == |ring|
    ensures var last := |ring| - 1; var prev, r := Before(ring, last), [ring[last]] + ring[..last] + [tid];
      prev < |tasks| && prev != tid && IsRing(Linked(tasks, tid, tick, prev), r, tid)
      && Entries(Linked(tasks, tid, tick, prev), r) == Insert(Entries(tasks, ring), Entry(tid, tick))
  {
    hide Linked, Before, Insert, FirstFrom, IsRing;
    var last := |ring| - 1;
    RingBounds(tasks, ring, tail);
    RingBefore(tasks, ring, tail, tid, tick, last);
    InsertMaximum(Entries(tasks, ring), Entry(tid, tick));
    var r, linked := InsertAt(ring, last, tid), Linked(tasks, tid, tick, Before(ring, last));
    TurnRing(linked, r, tail);
    assert [r[last + 1]] + r[..last + 1] == [ring[last]] + ring[..last] + [tid];
    forall i: nat | i < |r|
      ensures r[i] < |tasks| && linked[r[i]].finalTick == if i == last then tick else tasks[r[i]].finalTick
    {
      NextAfterLink(tasks, ring, tail, tid, tick, last, i);
    }
    EntriesAre(linked, [r[last + 1]] + r[..last + 1], Insert(Entries(tasks, ring), Entry(tid, tick)));
  }

  /** Unlinking the first k tasks. */
  lemma Unlink(tasks: seq<DelayedTask>, ring: seq<nat>, tail: int, k: nat)
    requires IsRing(tasks, ring, tail) && k < |ring|
    ensures 0 <= tail < |tasks|
    ensures var linked := tasks[tail := tasks[tail].(next := ring[k])];
      IsRing(linked, ring[k..], tail) && Entries(linked, ring[k..]) == Entries(tasks, ring)[k..]
  {
    hide IsRing;
    RingBounds(tasks, ring, tail);
    var linked, r := tasks[tail := tasks[tail].(next := ring[k])], ring[k..];
    forall i: nat | i < |r| ensures r[i] == ring[k + i] && (i < |r| - 1 ==> linked[r[i]].next == r[i + 1]) {}
    RingIs(linked, r, tail);
    forall i: nat | i < |r| ensures Entries(tasks, ring)[k..][i] == Entry(r[i], linked[r[i]].finalTick) {}
    EntriesAre(linked, r, Entries(tasks, ring)[k..]);
  }

  lemma RingIs(tasks: seq<DelayedTask>, ring: seq<nat>, tail: int)
    requires ring != [] && 0 <= tail < |tasks| && tasks[tail].next == ring[0]
    requires forall i: nat :: i < |ring| ==> ring[i] < |tasks| && (ring[i] == tail <==> i == |ring| - 1)
    requires forall i: nat, j: nat :: i < j < |ring| ==> ring[i] != ring[j]
    requires forall i: nat :: i < |ring| - 1 ==> tasks[ring[i]].next == ring[i + 1]
    ensures IsRing(tasks, ring, tail)
  {
  }

  class Queue {
    const tasks: array<DelayedTask>
    var tail: int
    ghost var ring: seq<nat>

    ghost predicate Valid()
      reads this, tasks
    {
      tasks.Length == MAX_DELAYED_TASKS && IsRing(tasks[..], ring, tail)
    }

    ghost function Pending(): (entries: seq<Entry>)
      reads this, tasks
      requires Valid()
    {
      Entries(tasks[..], ring)
    }

    constructor ()
      ensures Valid() && fresh(tasks) && Pending() == []
    {
      tasks := new DelayedTask[MAX_DELAYED_TASKS](_ => DelayedTask(0, NULL));
      tail := NULL;
      ring := [];
    }

    /** insertDelayedTask, for a task that is not delayed already. */
    method InsertDelayedTask(tid: nat, finalTick: nat)
      requires Valid() && tid < MAX_DELAYED_TASKS && tid !in ring
      modifies this, tasks
      ensures Valid() && Pending() == Insert(old(Pending()), Entry(tid, finalTick))
    {
      hide IsRing, Entries, Linked, Insert, InsertAt, FirstFrom;
      ghost var was, es := tasks[..], Pending();
      RingBounds(was, ring, tail);
      tasks[tid] := tasks[tid].(finalTick := finalTick);
      if tail == NULL {
        tail := tid;
        tasks[tid] := tasks[tid].(next := tid);
        ring := [tid];
        OneTask(tasks[..], tid);
        InsertFirst(Entry(tid, finalTick));
        return;
      }
      var curr: nat := tail;
      ghost var i := 0;
      while true
        invariant ring == old(ring) && tail == old(tail) && i < |ring| && curr == Before(ring, i)
          && FirstFrom(es, finalTick) >= i
        invariant tasks[..] == was[tid := was[tid].(finalTick := finalTick)]
        decreases |ring| - i
      {
        RingStep(was, ring, tail, i);
        var succ: nat := tasks[curr].next;
        if tasks[succ].finalTick >= finalTick {
          LinkBefore(was, ring, tail, tid, finalTick, i);
          tasks[tid] := tasks[tid].(next := succ);
          tasks[curr] := tasks[curr].(next := tid);
          ring := InsertAt(ring, i, tid);
          assert tasks[..] == Linked(was, tid, finalTick, curr);
          return;
        }
        if succ == tail {
          LinkAsTail(was, ring, tail, tid, finalTick);
          tasks[tid] := tasks[tid].(next := succ);
          tasks[curr] := tasks[curr].(next := tid);
          ring := [ring[|ring| - 1]] + ring[..|ring| - 1] + [tid];
          tail := tid;
          assert tasks[..] == Linked(was, tid, finalTick, curr);
          return;
        }
        curr := succ;
        i := i + 1;
      }
    }

    /** removeExpiredTasks; `replies` are the tasks it unblocks, in order. */
    method RemoveExpiredTasks(currTick: nat) returns (replies: seq<nat>)
      requires Valid()
      modifies this, tasks
      ensures Valid()
      ensures var es := old(Pending()); var k := Due(es, currTick);
        && Pending() == es[k..]
        && |replies| == k && forall i: nat :: i < k ==> replies[i] == es[i].tid
    {
      hide IsRing, Entries;
      ghost var es := Pending();
      RingBounds(tasks[..], ring, tail);
      replies := [];
      if tail == NULL { return; }
      var curr: nat := tasks[tail].next;
      ghost var i := 0;
      while true
        invariant ring == old(ring) && tail == old(tail) && tasks[..] == old(tasks[..]) && i < |ring|
          && curr == ring[i] && Due(es, currTick) >= i
        invariant |replies| == i && forall j: nat :: j < i ==> replies[j] == es[j].tid
        decreases |ring| - i
      {
        if tasks[curr].finalTick > currTick {
          Unlink(tasks[..], ring, tail, i);
          tasks[tail] := tasks[tail].(next := curr);
          ring := ring[i..];
          return;
        }
        replies := replies + [curr];
        if curr == tail {
          assert i == |ring| - 1;
          tail := NULL;
          ring := [];
          NoTask(tasks[..]);
          return;
        }
        assert tasks[..][ring[i]].next == ring[i + 1];
        curr := tasks[curr].next;
        i := i + 1;
      }
    }
  }

  lemma RingBounds(tasks: seq<DelayedTask>, ring: seq<nat>, tail: int)
    requires IsRing(tasks, ring, tail)
    ensures ring == [] <==> tail == NULL
    ensures forall i: nat :: i < |ring| ==> ring[i] < |tasks| && (ring[i] == tail <==> i == |ring| - 1)
    ensures forall i: nat, j: nat :: i < j < |ring| ==> ring[i] != ring[j]
    ensures forall i: nat :: i < |ring| - 1 ==> tasks[ring[i]].next == ring[i + 1]
    ensures ring != [] ==> 0 <= tail < |tasks| && tasks[tail].next == ring[0]
    ensures var es := Entries(tasks, ring);
      |es| == |ring| && forall i: nat :: i < |ring| ==> es[i] == Entry(ring[i], tasks[ring[i]].finalTick)
  {
  }

  lemma InsertFirst(e: Entry)
    ensures Insert([], e) == [e]
  {
  }

  lemma OneTask(tasks: seq<DelayedTask>, tid: nat)
    requires tid < |tasks| && tasks[tid].next == tid
    ensures IsRing(tasks, [tid], tid) && Entries(tasks, [tid]) == [Entry(tid, tasks[tid].finalTick)]
  {
  }

  lemma NoTask(tasks: seq<DelayedTask>)
    ensures IsRing(tasks, [], NULL) && Entries(tasks, []) == []
  {
  }
}
