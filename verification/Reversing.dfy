/** Turning round: distances measured in the opposite direction, and the engineer's reverse
    step (user/engineer.c, commandWorkerReverseSet). */
module Reversing {
  import opened Common
  import opened Track
  import opened Turnouts
  import opened Walking

  /** Every node has an opposite, and every edge runs back between the opposites with the
      same length. */
  ghost predicate Skew(t: Graph) {
    && (forall n :: 0 <= n < |t| ==> t[n].reverse < |t| && t[n].reverse != n && t[t[n].reverse].reverse == n)
    && (forall n, d :: 0 <= n < |t| && 0 <= d < |t[n].edge| ==> HasPartner(t, n, d))
  }

  ghost predicate HasPartner(t: Graph, n: nat, d: nat)
    requires HasEdge(t, n, d)
  {
    var e := t[n].edge[d];
    e.dest < |t| &&
    exists b :: 0 <= b && HasEdge(t, t[e.dest].reverse, b) && t[t[e.dest].reverse].edge[b] == Edge(t[n].reverse, e.dist)
  }

  ghost predicate Reversible(t: Graph) {
    Drivable(t) && Skew(t)
  }

  /** The turnout met when going back over this edge stands towards it. */
  ghost predicate BackAligned(t: Graph, bitmap: nat, n: nat)
    requires Reversible(t) && n < |t|
  {
    var m := NextAt(t, bitmap, n);
    m.Some? && t[t[m.value].reverse].kind == Branch ==>
      var back := t[m.value].reverse;
      t[back].edge[Direction(t, bitmap, back)].dest == t[n].reverse
  }

  /** getNextNode on a drivable track. */
  function NextAt(t: Graph, bitmap: nat, n: nat): (m: Option<nat>)
    requires Reversible(t) && n < |t|
    ensures m.Some? <==> t[n].kind != Exit
    ensures m.Some? ==> m.value < |t|
  {
    assert NodeOk(t, n);
    NextNode(t, bitmap, n)
  }

  /** Going one edge on and one edge back, with the turnout aligned. */
  lemma BackEdge(t: Graph, bitmap: nat, n: nat)
    requires Reversible(t) && n < |t| && t[n].kind != Exit && BackAligned(t, bitmap, n)
    ensures NodeOk(t, n) && (t[n].kind == Branch ==> ValidTurnout(t[n].num))
    ensures var e := t[n].edge[Direction(t, bitmap, n)];
      && e.dest < |t| && t[e.dest].reverse < |t|
      && var back := t[e.dest].reverse;
         && t[back].kind != Exit && NodeOk(t, back) && (t[back].kind == Branch ==> ValidTurnout(t[back].num))
         && t[back].edge[Direction(t, bitmap, back)] == Edge(t[n].reverse, e.dist)
  {
    assert NodeOk(t, n);
    var d := Direction(t, bitmap, n);
    assert HasPartner(t, n, d);
    var e := t[n].edge[d];
    var back := t[e.dest].reverse;
    assert NodeOk(t, back);
    var b :| 0 <= b && HasEdge(t, back, b) && t[back].edge[b] == Edge(t[n].reverse, e.dist);
  }

  /** The turnouts dictate one walk: its continuation is the walk from where it got to. */
  lemma {:induction false} StepsCompose(t: Graph, bitmap: nat, n: nat, i: nat, x: nat)
    requires Drivable(t) && n < |t| && |Steps(t, bitmap, n, i)| == i
    ensures var m := End(t, n, Steps(t, bitmap, n, i));
      m < |t| && Steps(t, bitmap, n, i + x) == Steps(t, bitmap, n, i) + Steps(t, bitmap, m, x)
      && End(t, n, Steps(t, bitmap, n, i + x)) == End(t, m, Steps(t, bitmap, m, x))
  {
    hide Steps, Drivable, IsCurved, End, Walk, Cost;
    var p := Steps(t, bitmap, n, i);
    var m := End(t, n, p);
    if x == 0 {
      StartsAt(t, bitmap, m);
      assert p + [] == p;
    } else {
      StepsCompose(t, bitmap, n, i, x - 1);
      StepsNext(t, bitmap, n, i + x);
      StepsNext(t, bitmap, m, x);
      var s := Steps(t, bitmap, m, x - 1);
      WalkConcat(t, n, p, s);
      assert p + (s + [Direction(t, bitmap, End(t, m, s))]) == (p + s) + [Direction(t, bitmap, End(t, m, s))];
    }
    WalkConcat(t, n, p, Steps(t, bitmap, m, x));
  }

  /** A first visit comes before any return to the starting node. */
  lemma NoReturnBefore(t: Graph, bitmap: nat, from: nat, to: nat, k: nat, i: nat)
    requires Drivable(t) && from < |t| && FirstReaches(t, bitmap, from, to, k) && 0 < i < k
    ensures !Reaches(t, bitmap, from, from, i)
  {
    hide Steps, Drivable, IsCurved, End, Walk, Cost;
    assert !Reaches(t, bitmap, from, to, k - i);
    if Reaches(t, bitmap, from, from, i) { StepsCompose(t, bitmap, from, i, k - i); }
  }

  ghost predicate WayBack(t: Graph, bitmap: nat, from: nat, k: nat)
    requires Reversible(t) && from < |t|
  {
    forall i :: 0 <= i < k ==> BackAligned(t, bitmap, End(t, from, Steps(t, bitmap, from, i)))
  }

  /** j edges back from the opposite of the end, the train is at the opposite of the node j
      edges before the end, and has come as far. */
  lemma {:induction false} BackSteps(t: Graph, bitmap: nat, from: nat, k: nat, j: nat)
    requires Reversible(t) && from < |t| && |Steps(t, bitmap, from, k)| == k && j <= k && WayBack(t, bitmap, from, k)
    ensures var there, rest := Steps(t, bitmap, from, k), Steps(t, bitmap, from, k - j);
      var start := t[End(t, from, there)].reverse;
      && start < |t| && |rest| == k - j
      && var back := Steps(t, bitmap, start, j);
         && |back| == j && End(t, start, back) == t[End(t, from, rest)].reverse
         && Cost(t, start, back) == Cost(t, from, there) - Cost(t, from, rest)
  {
    hide Steps, Drivable, IsCurved, End, Walk, Cost, BackAligned, HasPartner;
    var end := End(t, from, Steps(t, bitmap, from, k));
    var start := t[end].reverse;
    assert t[end].reverse < |t|;
    if j == 0 {
      StartsAt(t, bitmap, start);
    } else {
      BackSteps(t, bitmap, from, k, j - 1);
      var n := End(t, from, Steps(t, bitmap, from, k - j));
      StepsNext(t, bitmap, from, k - j + 1);
      StepsNext(t, bitmap, start, j);
      StepsStop(t, bitmap, from, k - j + 1);
      assert BackAligned(t, bitmap, n);
      BackEdge(t, bitmap, n);
    }
  }

  /** Where the turnouts met backwards are aligned with the walk, the distance back between
      the opposite nodes is the distance there. */
  lemma DistanceBackIsDistanceThere(t: Graph, bitmap: nat, from: nat, to: nat, k: nat)
    requires Reversible(t) && from < |t| && to < |t| && FirstReaches(t, bitmap, from, to, k)
      && WayBack(t, bitmap, from, k)
    ensures FirstReaches(t, bitmap, t[to].reverse, t[from].reverse, k)
    ensures Cost(t, t[to].reverse, Steps(t, bitmap, t[to].reverse, k)) == Cost(t, from, Steps(t, bitmap, from, k))
  {
    hide Steps, Drivable, IsCurved, End, Walk, Cost, BackAligned, HasPartner;
    BackSteps(t, bitmap, from, k, k);
    StartsAt(t, bitmap, from);
    forall j | 0 < j < k ensures !Reaches(t, bitmap, t[to].reverse, t[from].reverse, j) {
      BackSteps(t, bitmap, from, k, j);
      NoReturnBefore(t, bitmap, from, to, k, k - j);
      var n := End(t, from, Steps(t, bitmap, from, k - j));
      assert t[t[n].reverse].reverse == n && t[t[from].reverse].reverse == from;
    }
  }

  /** distanceBetween itself, called there and back. */
  method MeasureBothWays(t: Graph, bitmap: nat, from: nat, to: nat, ghost k: nat) returns (there: int, back: int)
    requires Reversible(t) && from < |t| && to < |t| && 0 < k <= TRACK_MAX / 2
    requires FirstReaches(t, bitmap, from, to, k) && WayBack(t, bitmap, from, k)
    ensures there == back >= 0
  {
    DistanceBackIsDistanceThere(t, bitmap, from, to, k);
    WalkBounds(t, from, Steps(t, bitmap, from, k));
    there := DistanceBetween(t, bitmap, from, to);
    back := DistanceBetween(t, bitmap, t[to].reverse, t[from].reverse);
  }

  // ----- the engineer's reverse step -----

  datatype Heading = Heading(forward: bool, prevNode: nat, prevSensor: nat, nextSensor: nat)

  ghost predicate OnTrack(t: Graph, h: Heading) {
    h.prevNode < |t| && h.prevSensor < |t| && h.nextSensor < |t|
  }

  function Reverse(t: Graph, bitmap: nat, h: Heading): Heading
    requires Reversible(t) && OnTrack(t, h) && t[h.prevNode].kind != Exit
  {
    Heading(!h.forward, t[NextAt(t, bitmap, h.prevNode).value].reverse, t[h.nextSensor].reverse,
      t[h.prevSensor].reverse)
  }

  /** Reversing twice restores the engineer's position exactly when the turnout met backwards
      stands towards the track the train came over. */
  lemma ReverseTwice(t: Graph, bitmap: nat, h: Heading)
    requires Reversible(t) && OnTrack(t, h) && t[h.prevNode].kind != Exit
    ensures var r := Reverse(t, bitmap, h);
      && OnTrack(t, r) && t[r.prevNode].kind != Exit
      && (Reverse(t, bitmap, r) == h <==> BackAligned(t, bitmap, h.prevNode))
  {
    var m := NextAt(t, bitmap, h.prevNode).value;
    var back := t[m].reverse;
    assert NodeOk(t, h.prevNode) && NodeOk(t, back);
    assert HasPartner(t, h.prevNode, Direction(t, bitmap, h.prevNode));
    assert t[t[h.prevNode].reverse].reverse == h.prevNode;
    if BackAligned(t, bitmap, h.prevNode) {
      BackEdge(t, bitmap, h.prevNode);
    } else {
      var n := NextAt(t, bitmap, back).value;
      assert t[t[n].reverse].reverse == n;
    }
  }

  /** Where the train drives after a reverse. The sensor it passed last lies ahead now: it comes as
      many edges from the new prevNode as the train had come past it. The sensor that was to come is
      behind: from it, the new prevNode is as many edges away as it was from the next node on. */
  lemma ReverseFaces(t: Graph, bitmap: nat, h: Heading, i: nat, j: nat)
    requires Reversible(t) && OnTrack(t, h) && t[h.prevNode].kind != Exit
    requires Reaches(t, bitmap, h.prevSensor, h.prevNode, i) && WayBack(t, bitmap, h.prevSensor, i + 1)
    requires Reaches(t, bitmap, NextAt(t, bitmap, h.prevNode).value, h.nextSensor, j)
    requires WayBack(t, bitmap, NextAt(t, bitmap, h.prevNode).value, j)
    ensures var r := Reverse(t, bitmap, h);
      && r.forward != h.forward && OnTrack(t, r)
      && Reaches(t, bitmap, r.prevNode, r.nextSensor, i + 1)
      && Reaches(t, bitmap, r.prevSensor, r.prevNode, j)
  {
    hide Steps, Drivable, IsCurved, End, Walk, Cost, BackAligned, HasPartner;
    var m := NextAt(t, bitmap, h.prevNode).value;
    NextIsOneMore(t, bitmap, h.prevSensor, h.prevNode, i);
    assert Reaches(t, bitmap, h.prevSensor, m, i + 1);
    BackSteps(t, bitmap, h.prevSensor, i + 1, i + 1);
    StartsAt(t, bitmap, h.prevSensor);
    BackSteps(t, bitmap, m, j, j);
    StartsAt(t, bitmap, m);
  }

  lemma NextIsOneMore(t: Graph, bitmap: nat, from: nat, n: nat, i: nat)
    requires Reversible(t) && from < |t| && n < |t| && Reaches(t, bitmap, from, n, i) && t[n].kind != Exit
    ensures Reaches(t, bitmap, from, NextAt(t, bitmap, n).value, i + 1)
  {
    hide Steps, End, Walk, Cost;
    StepsNext(t, bitmap, from, i + 1);
  }
}
