/** The rings of kernel/utils.c: CBuffer, CommandQueue and SensorQueue, which share their code.
    A ring of `size` cells holds at most size - 1 values; one push too many drops all of them. */
module Rings {
  import opened Common

  // ----- on sequences -----

  /** What a ring holds after a push. */
  function Pushed<T>(s: seq<T>, x: T, capacity: nat): seq<T> {
    if |s| < capacity then s + [x] else [x]
  }

  function PushedAll<T>(s: seq<T>, xs: seq<T>, capacity: nat): seq<T> {
    if xs == [] then s else Pushed(PushedAll(s, xs[..|xs| - 1], capacity), xs[|xs| - 1], capacity)
  }

  /** Some push found the ring full. */
  predicate Overflows<T>(s: seq<T>, xs: seq<T>, capacity: nat) {
    xs != [] &&
    (Overflows(s, xs[..|xs| - 1], capacity) || |PushedAll(s, xs[..|xs| - 1], capacity)| >= capacity)
  }

  function Last<T>(s: seq<T>, n: nat): seq<T>
    requires n <= |s|
  {
    s[|s| - n..]
  }

  lemma NextRemainder(n: nat, m: nat)
    requires m > 0
    ensures (n + 1) % m == if n % m + 1 < m then n % m + 1 else 0
  {
    var q, r := n / m, n % m;
    if r + 1 < m {
      DivisionIsUnique(n + 1, m, q, r + 1);
    } else {
      assert n + 1 == (q + 1) * m;
      DivisionIsUnique(n + 1, m, q + 1, 0);
    }
  }

  /** Whatever is pushed, the ring holds the last 1 + (n - 1) mod capacity of the n values it
      has been given. */
  lemma {:induction false} PushedAllIsSuffix<T>(s: seq<T>, xs: seq<T>, capacity: nat)
    requires |s| <= capacity && capacity > 0 && s + xs != []
    ensures var n := |s| + |xs|; var kept := 1 + (n - 1) % capacity;
      kept <= n && PushedAll(s, xs, capacity) == Last(s + xs, kept)
  {
    var n := |s| + |xs|;
    if xs == [] {
      assert s + xs == s;
      DivisionIsUnique(n - 1, capacity, 0, n - 1);
    } else {
      var before, x := xs[..|xs| - 1], xs[|xs| - 1];
      assert s + xs == (s + before) + [x];
      if s + before == [] {
        DivisionIsUnique(0, capacity, 0, 0);
      } else {
        PushedAllIsSuffix(s, before, capacity);
        NextRemainder(n - 2, capacity);
      }
    }
  }

  /** Nothing is lost exactly if everything fits at once. */
  lemma {:induction false} NothingLostIff<T>(s: seq<T>, xs: seq<T>, capacity: nat)
    requires |s| <= capacity && capacity > 0
    ensures PushedAll(s, xs, capacity) == s + xs <==> |s| + |xs| <= capacity
    ensures Overflows(s, xs, capacity) <==> |s| + |xs| > capacity
    ensures |PushedAll(s, xs, capacity)| <= capacity
    ensures xs != [] ==> PushedAll(s, xs, capacity) != []
  {
    if xs == [] {
      assert s + xs == s;
    } else {
      var before := xs[..|xs| - 1];
      NothingLostIff(s, before, capacity);
      assert s + xs == (s + before) + [xs[|xs| - 1]];
    }
  }

  /** An empty ring takes as many values as it can hold; of one more, it keeps the last. */
  lemma OneTooMany<T>(xs: seq<T>, capacity: nat)
    requires capacity > 0
    ensures PushedAll([], xs, capacity) == xs <==> |xs| <= capacity
    ensures |xs| == capacity + 1 ==> PushedAll([], xs, capacity) == [xs[capacity]]
  {
    assert [] + xs == xs;
    NothingLostIff([], xs, capacity);
    if |xs| == capacity + 1 {
      var before := xs[..capacity];
      assert [] + before == before;
      NothingLostIff([], before, capacity);
    }
  }

  /** What pushing a string reports: the last push found the ring full. */
  predicate Reports<T>(s: seq<T>, xs: seq<T>, capacity: nat) {
    xs != [] && |PushedAll(s, xs[..|xs| - 1], capacity)| >= capacity
  }

  /** An overflow is reported exactly if a whole number of rings, and one value, has been given. */
  lemma ReportsIff<T>(s: seq<T>, xs: seq<T>, capacity: nat)
    requires |s| <= capacity && capacity > 0 && xs != []
    ensures var n := |s| + |xs|; Reports(s, xs, capacity) <==> n > capacity && (n - 1) % capacity == 0
  {
    var before, n := xs[..|xs| - 1], |s| + |xs|;
    if n == 1 {
      assert s == [] && before == [];
    } else {
      PushedAllIsSuffix(s, before, capacity);
      NextRemainder(n - 2, capacity);
      if n - 1 < capacity { DivisionIsUnique(n - 1, capacity, 0, n - 1); }
    }
  }

  /** The report is right exactly if everything fits, or it is the last value that does not. */
  lemma ReportIsRightIff<T>(s: seq<T>, xs: seq<T>, capacity: nat)
    requires |s| <= capacity && capacity > 0 && xs != []
    ensures var n := |s| + |xs|;
      (Reports(s, xs, capacity) <==> Overflows(s, xs, capacity)) <==> n <= capacity || (n - 1) % capacity == 0
  {
    ReportsIff(s, xs, capacity);
    NothingLostIff(s, xs, capacity);
  }

  /** Two values too many for an empty ring of two or more: all but the last two are lost, and no
      overflow is reported. */
  lemma OverflowGoesUnreported<T>(xs: seq<T>, capacity: nat)
    requires capacity > 1 && |xs| == capacity + 2
    ensures Overflows([], xs, capacity) && !Reports([], xs, capacity)
    ensures PushedAll([], xs, capacity) == Last(xs, 2)
  {
    hide PushedAll, Overflows, Reports;
    DivisionIsUnique(capacity + 1, capacity, 1, 1);
    ReportsIff([], xs, capacity);
    NothingLostIff([], xs, capacity);
    PushedAllIsSuffix([], xs, capacity);
    assert [] + xs == xs;
  }

  // ----- in cells -----

  /** The cell k places after the head's. */
  function Cell(head: nat, k: nat, size: nat): (c: nat)
    requires head < size && k < size
    ensures c < size
  {
    if head + 1 + k < size then head + 1 + k else head + 1 + k - size
  }

  function Used(head: nat, tail: nat, size: nat): (n: nat)
    requires head < size && tail < size
    ensures n < size
  {
    if head <= tail then tail - head else tail + size - head
  }

  function InOrder<T>(cells: seq<T>, head: nat, tail: nat): (s: seq<T>)
    requires head < |cells| && tail < |cells|
    ensures |s| == Used(head, tail, |cells|)
    ensures forall k: nat :: k < |s| ==> s[k] == cells[Cell(head, k, |cells|)]
  {
    seq(Used(head, tail, |cells|), k requires 0 <= k < Used(head, tail, |cells|) => cells[Cell(head, k, |cells|)])
  }

  function Next(i: nat, size: nat): (n: nat)
    requires i < size
    ensures n == (i + 1) % size && n == if i + 1 == size then 0 else i + 1
  {
    (i + 1) % size
  }

  lemma PushOnCells<T>(cells: seq<T>, head: nat, tail: nat, x: T)
    requires head < |cells| && tail < |cells| && |cells| > 1
    ensures var size, next := |cells|, Next(tail, |cells|);
      && (next == head <==> |InOrder(cells, head, tail)| == size - 1)
      && (next != head ==> InOrder(cells[next := x], head, next) == InOrder(cells, head, tail) + [x])
      && (next == head ==> InOrder(cells[Next(head, size) := x], head, Next(head, size)) == [x])
  {
    var size, next := |cells|, Next(tail, |cells|);
    if next != head {
      var s, t := InOrder(cells, head, tail), InOrder(cells[next := x], head, next);
      assert |t| == |s| + 1 && Cell(head, |s|, size) == next;
      assert forall k: nat :: k < |s| ==> Cell(head, k, size) != next;
      assert forall k: nat :: k < |s| ==> t[k] == s[k];
      assert t[|s|] == x;
    }
  }

  lemma PopOnCells<T>(cells: seq<T>, head: nat, tail: nat)
    requires head < |cells| && tail < |cells| && head != tail
    ensures var next := Next(head, |cells|);
      InOrder(cells, head, tail) == [cells[next]] + InOrder(cells, next, tail)
  {
    var size, next := |cells|, Next(head, |cells|);
    var s, t := InOrder(cells, head, tail), InOrder(cells, next, tail);
    assert |s| == |t| + 1 && Cell(head, 0, size) == next;
    assert forall k: nat :: k < |t| ==> Cell(next, k, size) == Cell(head, k + 1, size);
    assert forall k: nat :: k < |t| ==> s[k + 1] == t[k];
  }

  class Ring<T> {
    const data: array<T>
    const size: nat
    var head: nat
    var tail: nat

    ghost predicate Valid()
      reads this
    {
      size == data.Length > 1 && head < size && tail < size
    }

    ghost function Contents(): (s: seq<T>)
      reads this, data
      requires Valid()
      ensures |s| < size
    {
      InOrder(data[..], head, tail)
    }

    constructor (data: array<T>)
      requires data.Length > 1
      ensures Valid() && this.data == data && size == data.Length && Contents() == []
    {
      this.data := data;
      size := data.Length;
      head, tail := 0, 0;
    }

    /** -1 if the ring was full; then only x is left in it. */
    method Push(x: T) returns (ret: int)
      requires Valid()
      modifies this, data
      ensures Valid() && Contents() == Pushed(old(Contents()), x, size - 1)
      ensures ret == if |old(Contents())| < size - 1 then 0 else -1
    {
      hide InOrder, Used;
      PushOnCells(data[..], head, tail, x);
      ret := 0;
      tail := Next(tail, size);
      if tail == head {
        tail := Next(tail, size);
        ret := -1;
      }
      data[tail] := x;
    }

    /** None, the source's -1, if the ring is empty. */
    method Pop() returns (x: Option<T>)
      requires Valid()
      modifies this
      ensures Valid() && if old(Contents()) == [] then x == None && Contents() == []
                         else x == Some(old(Contents())[0]) && Contents() == old(Contents())[1..]
    {
      if head != tail {
        PopOnCells(data[..], head, tail);
        head := Next(head, size);
        x := Some(data[head]);
      } else {
        x := None;
      }
    }

    method IsEmpty() returns (empty: bool)
      requires Valid()
      ensures empty <==> Contents() == []
    {
      empty := head == tail;
    }

    /** Pushes one by one. The result is -1 only if the last push overflowed: see ReportIsRightIff. */
    method PushAll(xs: seq<T>) returns (ret: int)
      requires Valid()
      modifies this, data
      ensures Valid() && Contents() == PushedAll(old(Contents()), xs, size - 1)
      ensures ret == -1 <==> Reports(old(Contents()), xs, size - 1)
      ensures xs != [] ==>
        var n := |old(Contents())| + |xs|; ret == -1 <==> n > size - 1 && (n - 1) % (size - 1) == 0
      ensures ret != -1 ==> ret == |xs|
    {
      ret := 0;
      for i := 0 to |xs|
        invariant Valid() && Contents() == PushedAll(old(Contents()), xs[..i], size - 1)
        invariant ret == 0 || ret == -1
        invariant ret == -1 <==> Reports(old(Contents()), xs[..i], size - 1)
      {
        assert xs[..i + 1][..i] == xs[..i];
        ret := Push(xs[i]);
      }
      assert xs[..|xs|] == xs;
      if xs != [] { ReportsIff(old(Contents()), xs, size - 1); }
      ret := if ret == 0 then |xs| else ret;
    }
  }
}
