/** The engineer's side of a reservation (user/engineer.c): it asks for the nodes on the walk
    ahead that cover its stopping distance. */
module StoppingWalk {
  import opened Track
  import opened Walking
  import opened Reservation

  /** C's division, which rounds toward zero. */
  function Quotient(x: int, d: int): int
    requires d > 0
  {
    if x >= 0 then x / d else -(-x / d)
  }

  lemma QuotientTruncates(x: int, d: int)
    requires d > 0
    ensures var q, r := Quotient(x, d), x - d * Quotient(x, d);
      -d < r < d && (x >= 0 ==> q >= 0 && r >= 0) && (x <= 0 ==> q <= 0 && r <= 0)
  {
  }

  /** After k edges the walk is at least `mm` long, or is at an exit. */
  ghost predicate CoversAt(t: Graph, bitmap: nat, from: nat, mm: int, k: nat)
    requires Drivable(t) && from < |t|
  {
    var dirs := Steps(t, bitmap, from, k);
    |dirs| == k && (Cost(t, from, dirs) >= mm || t[End(t, from, dirs)].kind == Exit)
  }

  ghost predicate ShortestCover(t: Graph, bitmap: nat, from: nat, mm: int, k: nat)
    requires Drivable(t) && from < |t|
  {
    CoversAt(t, bitmap, from, mm, k) && forall j: nat :: j < k ==> !CoversAt(t, bitmap, from, mm, j)
  }

  /** 15 nodes, hence 14 edges, are the most that one request holds. */
  ghost predicate Coverable(t: Graph, bitmap: nat, from: nat, mm: int)
    requires Drivable(t) && from < |t|
  {
    exists k: nat :: k < MAX_RESERVE_SIZE - 1 && CoversAt(t, bitmap, from, mm, k)
  }

  /** The stopping distances of trains 66 and 62 by speed, in micrometres. */
  const STOPPING_DIST_66 := [0, 100, 300, 600, 900, 1100, 2500, 4000, 5000,
                             6000, 6000, 1450000, 1250000, 948200, 948200]
  const STOPPING_DIST_62 := [0, 100, 1000, 10000, 50000, 100000, 330000, 389000,
                             487000, 500000, 558000, 635000, 700000, 816000, 812000]

  /** The longest of them, in millimetres. */
  const LONGEST_STOP: int := 1450

  /** 14 edges in a row are longer than that. Both tracks are: the shortest such walk measures
      2302 mm on track A and 2205 mm on track B. */
  ghost predicate Roomy(t: Graph) {
    forall n: nat, dirs: seq<nat> :: n < |t| && |dirs| == MAX_RESERVE_SIZE - 2 && Walk(t, n, dirs) ==>
      Cost(t, n, dirs) >= LONGEST_STOP
  }

  lemma LongestStop(distance: int)
    requires distance in STOPPING_DIST_66 || distance in STOPPING_DIST_62
    ensures Quotient(distance, 1000) <= LONGEST_STOP
  {
  }

  /** A walk of fewer edges than asked for has met an exit. */
  lemma {:induction false} ExitMet(t: Graph, bitmap: nat, from: nat, k: nat)
    requires Drivable(t) && from < |t| && |Steps(t, bitmap, from, k)| < k
    ensures var j := |Steps(t, bitmap, from, k)|;
      |Steps(t, bitmap, from, j)| == j && t[End(t, from, Steps(t, bitmap, from, j))].kind == Exit
  {
    hide Drivable, End, Cost, Walk;
    StepsNext(t, bitmap, from, k);
    if |Steps(t, bitmap, from, k - 1)| < k - 1 { ExitMet(t, bitmap, from, k - 1); }
  }

  /** On a roomy track 15 nodes are enough for every stopping distance there is. */
  lemma EveryStopIsCoverable(t: Graph, bitmap: nat, from: nat, distance: int)
    requires Drivable(t) && Roomy(t) && from < |t|
    requires distance in STOPPING_DIST_66 || distance in STOPPING_DIST_62
    ensures Coverable(t, bitmap, from, Quotient(distance, 1000))
  {
    hide Steps, Drivable, Quotient;
    LongestStop(distance);
    var mm, dirs := Quotient(distance, 1000), Steps(t, bitmap, from, MAX_RESERVE_SIZE - 2);
    if |dirs| < MAX_RESERVE_SIZE - 2 {
      ExitMet(t, bitmap, from, MAX_RESERVE_SIZE - 2);
      assert CoversAt(t, bitmap, from, mm, |dirs|);
    } else {
      assert CoversAt(t, bitmap, from, mm, MAX_RESERVE_SIZE - 2);
    }
  }

  /** The nodes of the shortest walk that covers the distance, or none if there are too many. */
  ghost function Ahead(t: Graph, bitmap: nat, from: nat, mm: int): (nodes: seq<nat>)
    requires Drivable(t) && from < |t|
    ensures Coverable(t, bitmap, from, mm) <==> nodes != []
    ensures nodes != [] ==>
      ShortestCover(t, bitmap, from, mm, |nodes| - 1) && nodes == Nodes(t, from, Steps(t, bitmap, from, |nodes| - 1))
  {
    if Coverable(t, bitmap, from, mm) then
      var k: nat :| k < MAX_RESERVE_SIZE - 1 && CoversAt(t, bitmap, from, mm, k);
      Nodes(t, from, Steps(t, bitmap, from, FirstCover(t, bitmap, from, mm, k)))
    else []
  }

  ghost function FirstCover(t: Graph, bitmap: nat, from: nat, mm: int, k: nat): (r: nat)
    requires Drivable(t) && from < |t| && CoversAt(t, bitmap, from, mm, k)
    ensures r <= k && ShortestCover(t, bitmap, from, mm, r)
  {
    if j: nat :| j < k && CoversAt(t, bitmap, from, mm, j) then FirstCover(t, bitmap, from, mm, j) else k
  }

  lemma AheadIs(t: Graph, bitmap: nat, from: nat, mm: int, k: nat)
    requires Drivable(t) && from < |t| && k < MAX_RESERVE_SIZE - 1 && ShortestCover(t, bitmap, from, mm, k)
    ensures Ahead(t, bitmap, from, mm) == Nodes(t, from, Steps(t, bitmap, from, k))
  {
    hide Steps, Drivable, Cost, End, CoversAt, Nodes;
    assert Coverable(t, bitmap, from, mm);
  }

  lemma {:induction false} NodesAhead(t: Graph, bitmap: nat, from: nat, k: nat, j: nat)
    requires Drivable(t) && from < |t| && |Steps(t, bitmap, from, k)| == k && j <= k
    ensures |Steps(t, bitmap, from, j)| == j
    ensures Nodes(t, from, Steps(t, bitmap, from, k))[j] == End(t, from, Steps(t, bitmap, from, j))
    decreases k
  {
    hide Drivable, End, Cost, Walk;
    if j < k {
      StepsStop(t, bitmap, from, k);
      StepsNext(t, bitmap, from, k);
      NodesAhead(t, bitmap, from, k - 1, j);
      var p := Steps(t, bitmap, from, k - 1);
      assert Steps(t, bitmap, from, k)[..k - 1] == p;
    } else {
      NodesAt(t, from, Steps(t, bitmap, from, k), k);
      assert Steps(t, bitmap, from, k)[..k] == Steps(t, bitmap, from, k);
    }
  }

  /** Fills the buffer with the walk ahead. The result is the number of nodes that cover the
      distance, or -1 if 15 nodes do not. */
  method GetReserveNodes(t: Graph, bitmap: nat, from: nat, reserveDist: int, reserveNodes: array<nat>) returns (n: int)
    requires Drivable(t) && from < |t| && reserveNodes.Length == MAX_RESERVE_SIZE
    modifies reserveNodes
    ensures var ahead := Ahead(t, bitmap, from, Quotient(reserveDist, 1000));
      if ahead == [] then n == -1 else n == |ahead| <= MAX_RESERVE_SIZE - 1 && reserveNodes[..n] == ahead
  {
    hide Steps, Drivable, Cost, End, Walk, Nodes;
    var dist := 0;
    var mm := Quotient(reserveDist, 1000);
    var node := from;
    reserveNodes[0] := from;
    StartsAt(t, bitmap, from);
    NodesAhead(t, bitmap, from, 0, 0);
    for i := 1 to MAX_RESERVE_SIZE
      invariant var p := Steps(t, bitmap, from, i - 1);
        && |p| == i - 1 && node == End(t, from, p) && node < |t| && dist == Cost(t, from, p)
        && reserveNodes[..i] == Nodes(t, from, p)
      invariant forall j: nat :: j < i - 1 ==> !CoversAt(t, bitmap, from, mm, j)
    {
      StepsNext(t, bitmap, from, i);
      ghost var p := Steps(t, bitmap, from, i - 1);
      if dist >= mm || t[node].kind == Exit {
        AheadIs(t, bitmap, from, mm, i - 1);
        return i;
      }
      var nextEdge := NextEdge(t, bitmap, node);
      var nextNode := NextNode(t, bitmap, node);
      node := nextNode.value;
      reserveNodes[i] := node;
      dist := dist + nextEdge.value.dist;
      WalkStep(t, from, p, Direction(t, bitmap, End(t, from, p)));
    }
    return -1;
  }

  /** The nodes of a request: the first n of its buffer, so none for n == -1. */
  function Asked(buffer: seq<nat>, n: int): seq<nat>
    requires n <= |buffer|
  {
    if n < 0 then [] else buffer[..n]
  }

  /** One reservation: look ahead, then ask the track server. */
  method ReserveAhead(server: TrackServer, bitmap: nat, tid: int, from: nat, stoppingDistance: int, release: seq<nat>)
    returns (reply: Reply)
    requires Drivable(server.track[..]) && ReverseOk(server.track[..]) && from < server.track.Length
    requires tid != NO_OWNER && OnTrack(server.track[..], release)
    modifies server.track
    ensures var t := old(server.track[..]);
      var q := Request(tid, release, Ahead(t, bitmap, from, Quotient(stoppingDistance, 1000)));
      RequestOk(t, q) && server.track[..] == After(t, q) && ReplyOk(t, q, reply)
  {
    hide Drivable, Steps, After, ReplyOk, ReverseOk;
    ghost var t := server.track[..];
    var buffer := new nat[MAX_RESERVE_SIZE];
    var n := GetReserveNodes(server.track[..], bitmap, from, stoppingDistance, buffer);
    var asked := Asked(buffer[..], n);
    assert asked == Ahead(t, bitmap, from, Quotient(stoppingDistance, 1000));
    AheadOnTrack(t, bitmap, from, Quotient(stoppingDistance, 1000));
    assert server.track[..] == t;
    reply := server.Serve(Request(tid, release, asked));
  }

  lemma AheadOnTrack(t: Graph, bitmap: nat, from: nat, mm: int)
    requires Drivable(t) && from < |t|
    ensures OnTrack(t, Ahead(t, bitmap, from, mm))
  {
    hide Steps;
    var nodes := Ahead(t, bitmap, from, mm);
    forall j: nat | j < |nodes| ensures nodes[j] < |t| { NodesAhead(t, bitmap, from, |nodes| - 1, j); }
  }

  /** On a roomy track Success means that every node which the train passes until it has covered
      its stopping distance, or meets an exit, belongs to it, with the reverse free. */
  lemma SuccessProtectsStop(
    t: Graph, bitmap: nat, tid: int, release: seq<nat>, from: nat, distance: int, k: nat, j: nat)
    requires Drivable(t) && Roomy(t) && ReverseOk(t) && from < |t|
    requires distance in STOPPING_DIST_66 || distance in STOPPING_DIST_62
    requires var q := Request(tid, release, Ahead(t, bitmap, from, Quotient(distance, 1000)));
      RequestOk(t, q) && ReplyOk(t, q, Success)
    requires ShortestCover(t, bitmap, from, Quotient(distance, 1000), k) && j <= k
    ensures var q := Request(tid, release, Ahead(t, bitmap, from, Quotient(distance, 1000)));
      OwnedWithReverseFree(After(t, q), End(t, from, Steps(t, bitmap, from, j)), tid)
  {
    hide Drivable, End, Cost, ReplyOk, After, ReverseOk, RequestOk, Nodes, Steps, Roomy, Quotient, ShortestCover,
      Coverable;
    var mm := Quotient(distance, 1000);
    EveryStopIsCoverable(t, bitmap, from, distance);
    SuccessProtectsCovered(t, bitmap, Request(tid, release, Ahead(t, bitmap, from, mm)), from, mm, k, j);
  }

  ghost predicate OwnedWithReverseFree(t: Graph, n: nat, tid: int) {
    n < |t| && t[n].owner == tid && t[n].reverse < |t| && t[t[n].reverse].owner == NO_OWNER
  }

  /** On any track this holds of a request that could be filled. */
  lemma SuccessProtectsCovered(t: Graph, bitmap: nat, q: Request, from: nat, mm: int, k: nat, j: nat)
    requires Drivable(t) && ReverseOk(t) && from < |t| && RequestOk(t, q) && q.reserve == Ahead(t, bitmap, from, mm)
    requires ReplyOk(t, q, Success) && Coverable(t, bitmap, from, mm)
    requires ShortestCover(t, bitmap, from, mm, k) && j <= k
    ensures OwnedWithReverseFree(After(t, q), End(t, from, Steps(t, bitmap, from, j)), q.tid)
  {
    hide Drivable, End, Cost, ReplyOk, After, ReverseOk, RequestOk, Nodes, Steps;
    CoverIsFirst(t, bitmap, from, mm, k, |q.reserve| - 1);
    NodesAhead(t, bitmap, from, k, j);
    assert q.reserve[j] in q.reserve;
    AheadOnTrack(t, bitmap, from, mm);
    SuccessOwnsAll(t, q, q.reserve[j]);
    ReversesExist(After(t, q), q.reserve[j]);
  }

  lemma CoverIsFirst(t: Graph, bitmap: nat, from: nat, mm: int, j: nat, k: nat)
    requires Drivable(t) && from < |t| && ShortestCover(t, bitmap, from, mm, j) && ShortestCover(t, bitmap, from, mm, k)
    ensures j == k
  {
    hide CoversAt, Drivable;
  }

  lemma ReversesExist(t: Graph, n: nat)
    requires ReverseOk(t) && n < |t|
    ensures t[n].reverse < |t|
  {
  }

  /** On any track Success says that the train owns even the first node ahead exactly if 15 nodes
      are enough; otherwise the request is empty and always succeeds. */
  lemma SuccessMeansSomethingIff(t: Graph, bitmap: nat, tid: int, release: seq<nat>, from: nat, mm: int)
    requires Drivable(t) && ReverseOk(t) && from < |t| && tid != NO_OWNER && OnTrack(t, release)
    requires t[from].owner != tid || from in release
    ensures RequestOk(t, Request(tid, release, Ahead(t, bitmap, from, mm)))
    ensures var q := Request(tid, release, Ahead(t, bitmap, from, mm));
      (ReplyOk(t, q, Success) ==> After(t, q)[from].owner == tid) <==> Coverable(t, bitmap, from, mm)
  {
    hide Drivable, End, Cost, ReverseOk, Nodes, Steps, CoversAt;
    var q := Request(tid, release, Ahead(t, bitmap, from, mm));
    AheadOnTrack(t, bitmap, from, mm);
    StartsAt(t, bitmap, from);
    if Coverable(t, bitmap, from, mm) {
      if ReplyOk(t, q, Success) { SuccessProtectsCovered(t, bitmap, q, from, mm, |q.reserve| - 1, 0); }
    } else {
      OwnerAfter(t, q, from);
    }
  }

  lemma {:induction false} CircleIsLong(t: Graph, bitmap: nat, k: nat)
    requires t == TwoTracks([-1, -1, -1, -1]) && Drivable(t)
    ensures var dirs := Steps(t, bitmap, 0, k);
      |dirs| == k && Cost(t, 0, dirs) == k && End(t, 0, dirs) < 2
  {
    hide Steps, Drivable, End, Cost, Walk;
    if k == 0 {
      StartsAt(t, bitmap, 0);
    } else {
      CircleIsLong(t, bitmap, k - 1);
      StepsNext(t, bitmap, 0, k);
    }
  }

  lemma CircleIsFine(t: Graph)
    requires t == TwoTracks([-1, -1, -1, -1])
    ensures Drivable(t) && ReverseOk(t) && AllFree(t) && |t| == 4
  {
  }

  lemma CircleIsNotRoomy(t: Graph, bitmap: nat)
    requires t == TwoTracks([-1, -1, -1, -1]) && Drivable(t)
    ensures !Roomy(t) && |t| == 4 && Ahead(t, bitmap, 0, 15) == []
  {
    hide Drivable, Steps, Cost, End, Walk;
    forall k: nat | k < MAX_RESERVE_SIZE - 1 ensures !CoversAt(t, bitmap, 0, 15, k) { CircleIsLong(t, bitmap, k); }
    CircleIsLong(t, bitmap, MAX_RESERVE_SIZE - 2);
    assert Walk(t, 0, Steps(t, bitmap, 0, MAX_RESERVE_SIZE - 2));
  }

  lemma NothingAsked(t: Graph, tid: int)
    requires ReverseOk(t) && tid != NO_OWNER
    ensures var q := Request(tid, [], []); RequestOk(t, q) && ReplyOk(t, q, Success) && After(t, q) == t
  {
    hide Give;
    GiveNone(t, NO_OWNER);
    GiveNone(t, tid);
  }

  /** A track that is not roomy: 15 mm ahead on a circle of 1 mm edges. Success, and nothing is
      owned. */
  lemma SuccessOwnsNothing(bitmap: nat)
    ensures var t := TwoTracks([-1, -1, -1, -1]);
      && Drivable(t) && ReverseOk(t) && AllFree(t) && !Roomy(t)
      && var q := Request(5, [], Ahead(t, bitmap, 0, Quotient(15000, 1000)));
      RequestOk(t, q) && ReplyOk(t, q, Success) && AllFree(After(t, q))
  {
    hide Drivable, Steps, Cost, End, Walk, Give, Roomy, AllFree, ReverseOk, RequestOk, TwoTracks, ReplyOk, After;
    var t := TwoTracks([-1, -1, -1, -1]);
    CircleIsFine(t);
    CircleIsNotRoomy(t, bitmap);
    AheadOnTrack(t, bitmap, 0, 15);
    NothingAsked(t, 5);
  }
}
