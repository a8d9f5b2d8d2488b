/** Walking the track under the turnout positions: getNextEdge, getNextNode and
    distanceBetween (user/pathfinding.c). */
module Walking {
  import opened Common
  import opened Bits
  import opened Track
  import opened Turnouts

  /** Each turnout number belongs to one branch; branch indices are positive; the two ways out
      of a branch differ. */
  ghost predicate TurnoutsOk(t: Graph) {
    && (forall n :: 0 <= n < |t| && t[n].kind == Branch ==>
          n > 0 && ValidTurnout(t[n].num) && |t[n].edge| == 2 && t[n].edge[0].dest != t[n].edge[1].dest)
    && (forall m, n :: 0 <= m < n < |t| && t[m].kind == Branch && t[n].kind == Branch ==> t[m].num != t[n].num)
  }

  ghost predicate Drivable(t: Graph) {
    WellFormed(t) && TurnoutsOk(t)
  }

  /** The edge a train takes out of node n, as the turnouts stand. */
  function Direction(t: Graph, bitmap: nat, n: nat): (d: nat)
    requires n < |t| && (t[n].kind == Branch ==> ValidTurnout(t[n].num))
    ensures d <= 1
  {
    if t[n].kind == Branch && IsCurved(bitmap, t[n].num) then DIR_CURVED else DIR_AHEAD
  }

  function NextEdge(t: Graph, bitmap: nat, n: nat): (e: Option<Edge>)
    requires n < |t| && (t[n].kind == Branch ==> ValidTurnout(t[n].num)) && |t[n].edge| == Degree(t[n].kind)
  {
    if t[n].kind == Exit then None else Some(t[n].edge[Direction(t, bitmap, n)])
  }

  function NextNode(t: Graph, bitmap: nat, n: nat): (m: Option<nat>)
    requires n < |t| && (t[n].kind == Branch ==> ValidTurnout(t[n].num)) && |t[n].edge| == Degree(t[n].kind)
  {
    var e := NextEdge(t, bitmap, n);
    if e.None? then None else Some(e.value.dest)
  }

  /** The walk of at most k edges that the turnouts dictate; shorter only if it meets an exit. */
  ghost function Steps(t: Graph, bitmap: nat, n: nat, k: nat): (dirs: seq<nat>)
    requires Drivable(t) && n < |t|
    ensures |dirs| <= k && Walk(t, n, dirs) && End(t, n, dirs) < |t|
    ensures |dirs| < k ==> t[End(t, n, dirs)].kind == Exit
  {
    if k == 0 then []
    else
      var p := Steps(t, bitmap, n, k - 1);
      var m := End(t, n, p);
      if t[m].kind == Exit then p
      else
        assert NodeOk(t, m);
        WalkStep(t, n, p, Direction(t, bitmap, m));
        p + [Direction(t, bitmap, m)]
  }

  lemma StepsNext(t: Graph, bitmap: nat, n: nat, k: nat)
    requires Drivable(t) && n < |t| && k > 0
    ensures var p := Steps(t, bitmap, n, k - 1);
      var m := End(t, n, p);
      && NodeOk(t, m) && (t[m].kind == Branch ==> ValidTurnout(t[m].num))
      && if t[m].kind == Exit then Steps(t, bitmap, n, k) == p
         else
           var d := Direction(t, bitmap, m);
           && Steps(t, bitmap, n, k) == p + [d] && HasEdge(t, m, d)
           && End(t, n, p + [d]) == t[m].edge[d].dest && Cost(t, n, p + [d]) == Cost(t, n, p) + t[m].edge[d].dist
  {
    var p := Steps(t, bitmap, n, k - 1);
    var m := End(t, n, p);
    assert NodeOk(t, m);
    if t[m].kind != Exit { WalkStep(t, n, p, Direction(t, bitmap, m)); }
  }

  lemma StepsStop(t: Graph, bitmap: nat, n: nat, k: nat)
    requires Drivable(t) && n < |t| && k > 0 && |Steps(t, bitmap, n, k)| == k
    ensures |Steps(t, bitmap, n, k - 1)| == k - 1 && t[End(t, n, Steps(t, bitmap, n, k - 1))].kind != Exit
  {
  }

  lemma StartsAt(t: Graph, bitmap: nat, n: nat)
    requires Drivable(t) && n < |t|
    ensures Steps(t, bitmap, n, 0) == [] && End(t, n, []) == n && Cost(t, n, []) == 0
  {
  }

  /** After exactly k edges the walk is at `to`. */
  ghost predicate Reaches(t: Graph, bitmap: nat, from: nat, to: nat, k: nat)
    requires Drivable(t) && from < |t|
  {
    |Steps(t, bitmap, from, k)| == k && End(t, from, Steps(t, bitmap, from, k)) == to
  }

  /** k is the first positive number of edges after which the walk is at `to`. */
  ghost predicate FirstReaches(t: Graph, bitmap: nat, from: nat, to: nat, k: nat)
    requires Drivable(t) && from < |t|
  {
    k > 0 && Reaches(t, bitmap, from, to, k) && forall j :: 0 < j < k ==> !Reaches(t, bitmap, from, to, j)
  }

  lemma FirstIsUnique(t: Graph, bitmap: nat, from: nat, to: nat, i: nat)
    requires Drivable(t) && from < |t| && 0 < i <= TRACK_MAX / 2 && Reaches(t, bitmap, from, to, i)
    requires forall j :: 0 < j < i ==> !Reaches(t, bitmap, from, to, j)
    ensures forall k :: FirstReaches(t, bitmap, from, to, k) ==> k == i
    ensures exists k :: 0 < k <= TRACK_MAX / 2 && Reaches(t, bitmap, from, to, k)
  {
  }

  lemma NoneIsFirst(t: Graph, bitmap: nat, from: nat, to: nat)
    requires Drivable(t) && from < |t| && forall k :: 0 < k <= TRACK_MAX / 2 ==> !Reaches(t, bitmap, from, to, k)
    ensures forall k :: 0 < k <= TRACK_MAX / 2 ==> !FirstReaches(t, bitmap, from, to, k)
  {
  }

  /** Micrometres to the first visit of `to` within 72 edges, or -1. */
  method DistanceBetween(t: Graph, bitmap: nat, from: nat, to: nat) returns (distance: int)
    requires Drivable(t) && from < |t|
    ensures distance == -1 <==> forall k :: 0 < k <= TRACK_MAX / 2 ==> !Reaches(t, bitmap, from, to, k)
    ensures forall k :: 0 < k <= TRACK_MAX / 2 && FirstReaches(t, bitmap, from, to, k) ==>
      distance == 1000 * Cost(t, from, Steps(t, bitmap, from, k))
    ensures -1 <= distance < 0x8000_0000
  {
    hide Steps, Drivable, End, Cost, Bit, IsCurved, Walk, FirstReaches;
    StartsAt(t, bitmap, from);
    var total := 0;
    var node := from;
    for i := 0 to TRACK_MAX / 2
      invariant var p := Steps(t, bitmap, from, i);
        |p| == i && node == End(t, from, p) && node < |t| && total == Cost(t, from, p) && 0 <= total <= MAX_DIST * i
      invariant forall k :: 0 < k <= i ==> !Reaches(t, bitmap, from, to, k)
    {
      StepsNext(t, bitmap, from, i + 1);
      ghost var p := Steps(t, bitmap, from, i);
      var nextEdge := NextEdge(t, bitmap, node);
      var nextNode := NextNode(t, bitmap, node);
      if nextEdge.None? || nextNode.None? {
        NeverReached(t, bitmap, from, to, i);
        NoneIsFirst(t, bitmap, from, to);
        return -1;
      }
      total := total + nextEdge.value.dist;
      node := nextNode.value;
      if node == to {
        FirstIsUnique(t, bitmap, from, to, i + 1);
        return 1000 * total;
      }
    }
    NoneIsFirst(t, bitmap, from, to);
    return -1;
  }

  lemma {:induction false} StuckAtExit(t: Graph, bitmap: nat, from: nat, i: nat, k: nat)
    requires Drivable(t) && from < |t| && i <= k
    requires t[End(t, from, Steps(t, bitmap, from, i))].kind == Exit
    ensures Steps(t, bitmap, from, k) == Steps(t, bitmap, from, i)
    decreases k
  {
    hide Steps, Drivable, End, IsCurved;
    if i < k {
      StuckAtExit(t, bitmap, from, i, k - 1);
      StepsNext(t, bitmap, from, k);
    }
  }

  lemma NeverReached(t: Graph, bitmap: nat, from: nat, to: nat, i: nat)
    requires Drivable(t) && from < |t| && |Steps(t, bitmap, from, i)| == i
    requires t[End(t, from, Steps(t, bitmap, from, i))].kind == Exit
    ensures forall k :: k > i ==> !Reaches(t, bitmap, from, to, k)
  {
    forall k | k > i ensures !Reaches(t, bitmap, from, to, k) { StuckAtExit(t, bitmap, from, i, k); }
  }

  // ----- turnouts set for a route -----

  /** The branch before step k of the walk, if it is one, stands the way the walk goes. */
  ghost predicate StandsAt(t: Graph, bitmap: nat, n: nat, dirs: seq<nat>, k: nat)
    requires TurnoutsOk(t) && k < |dirs|
  {
    var m := End(t, n, dirs[..k]);
    m < |t| && t[m].kind == Branch ==> (IsCurved(bitmap, t[m].num) <==> dirs[k] == DIR_CURVED)
  }

  ghost predicate Aligned(t: Graph, bitmap: nat, n: nat, dirs: seq<nat>)
    requires TurnoutsOk(t)
  {
    forall k: nat :: k < |dirs| ==> StandsAt(t, bitmap, n, dirs, k)
  }

  lemma AlignedDirection(t: Graph, bitmap: nat, n: nat, dirs: seq<nat>, k: nat)
    requires Drivable(t) && n < |t| && Aligned(t, bitmap, n, dirs) && k < |dirs|
      && HasEdge(t, End(t, n, dirs[..k]), dirs[k])
    ensures var m := End(t, n, dirs[..k]);
      m < |t| && t[m].kind != Exit && (t[m].kind == Branch ==> ValidTurnout(t[m].num))
        && Direction(t, bitmap, m) == dirs[k]
  {
    assert NodeOk(t, End(t, n, dirs[..k]));
    assert StandsAt(t, bitmap, n, dirs, k);
  }

  /** With the turnouts aligned a train that starts at n walks exactly this walk. */
  lemma {:induction false} AlignedWalkIsFollowed(t: Graph, bitmap: nat, n: nat, dirs: seq<nat>, k: nat)
    requires Drivable(t) && n < |t| && Walk(t, n, dirs) && Aligned(t, bitmap, n, dirs) && k <= |dirs|
    ensures Steps(t, bitmap, n, k) == dirs[..k]
  {
    hide Steps, Drivable, End, IsCurved, Walk, Aligned;
    if k == 0 {
      StartsAt(t, bitmap, n);
    } else {
      AlignedWalkIsFollowed(t, bitmap, n, dirs, k - 1);
      WalkPrefix(t, n, dirs, k - 1);
      StepsNext(t, bitmap, n, k);
      AlignedDirection(t, bitmap, n, dirs, k - 1);
      assert dirs[..k] == dirs[..k - 1] + [dirs[k - 1]];
    }
  }

  /** ... and measures it, if it repeats no node and has at most 72 edges. */
  lemma AlignedWalkIsFirst(t: Graph, bitmap: nat, n: nat, dirs: seq<nat>)
    requires Drivable(t) && n < |t| && Walk(t, n, dirs) && Aligned(t, bitmap, n, dirs) && dirs != []
    requires NoRepeats(Nodes(t, n, dirs))
    ensures FirstReaches(t, bitmap, n, End(t, n, dirs), |dirs|)
    ensures Steps(t, bitmap, n, |dirs|) == dirs
  {
    var to := End(t, n, dirs);
    AlignedWalkIsFollowed(t, bitmap, n, dirs, |dirs|);
    assert dirs[..|dirs|] == dirs;
    NodesAt(t, n, dirs, |dirs|);
    forall j | 0 < j < |dirs| ensures !Reaches(t, bitmap, n, to, j) {
      AlignedWalkIsFollowed(t, bitmap, n, dirs, j);
      NodesAt(t, n, dirs, j);
    }
  }
}
