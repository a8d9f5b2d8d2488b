/** planRoute (user/pathfinding.c): uniform-cost search over the arena g_nodes with the heap as
    frontier, then the route is read off backwards and reversed in place. */
module Planner {
  import opened Common
  import opened Bits
  import opened Heap
  import opened Track
  import opened RouteSearch

  const EXPLORE_SIZE: nat := 8192
  const HEAP_HEIGHT: nat := 12

  /** Where the source would go on with an empty frontier or past the end of a table. */
  datatype Outcome = Found | NoRoute | OutOfRoom

  class PathBuffer {
    var trainNum: int
    var length: int
    const tracknodes: array<nat>
    const reverse: array<bool>

    constructor (trainNum: int)
      ensures this.trainNum == trainNum && length == 0 && tracknodes.Length == TRACK_MAX && reverse.Length == TRACK_MAX
      ensures fresh(tracknodes) && fresh(reverse)
    {
      this.trainNum, length := trainNum, 0;
      tracknodes := new nat[TRACK_MAX];
      reverse := new bool[TRACK_MAX];
    }
  }

  ghost predicate SortedCosts(costs: seq<int>) {
    forall i, j :: 0 <= i < j < |costs| ==> costs[i] <= costs[j]
  }

  class Planner {
    const g_nodes: array<PathNode>
    var numNodes: nat
    /** The walk of each slot in use, and the slots whose nodes were popped. */
    ghost var paths: seq<seq<nat>>
    ghost var closed: set<nat>

    constructor ()
      ensures g_nodes.Length == EXPLORE_SIZE && fresh(g_nodes)
    {
      g_nodes := new PathNode[EXPLORE_SIZE];
      numNodes := 0;
    }

    /** The slots in use form the search tree of the query. */
    ghost predicate Valid(q: Query)
      reads this, g_nodes
    {
      && g_nodes.Length == EXPLORE_SIZE && numNodes <= EXPLORE_SIZE
      && QueryOk(q) && |paths| == numNodes && Tree(q, g_nodes[..numNodes], paths)
    }

    /** The frontier points into the tree, in heap order. */
    ghost predicate FrontierOk(pq: PQHeap<Ref>)
      reads this, g_nodes, pq, pq.heap
    {
      && pq.Valid() && pq.key == NodeCost && numNodes <= g_nodes.Length
      && Points(g_nodes[..numNodes], pq.Contents())
    }

    /** A new slot for the node that edge d of a popped node leads to. */
    method NewSlot(q: Query, popd: Ref, d: nat) returns (child: Ref)
      requires Valid(q) && numNodes < EXPLORE_SIZE && popd.slot < numNodes && popd.node == g_nodes[popd.slot]
      requires Open(q.t, popd.node.tn, q.train) && HasEdge(q.t, popd.node.tn, d)
      modifies this, g_nodes
      ensures Valid(q) && numNodes == old(numNodes) + 1 && closed == old(closed)
      ensures child == Ref(old(numNodes), ChildNode(q.t, popd, d)) && NodeCost(popd) <= NodeCost(child)
      ensures g_nodes[..numNodes] == old(g_nodes[..numNodes]) + [child.node]
      ensures paths == old(paths) + [old(paths)[popd.slot] + [d]]
    {
      hide Tree, QueryOk;
      ExtendTree(q, g_nodes[..numNodes], paths, popd, d);
      var edge := q.t[popd.node.tn].edge[d];
      var node := PathNode(popd.slot, edge.dest, popd.node.cost + edge.dist, popd.node.length + 1, false);
      child := Ref(numNodes, node);
      g_nodes[numNodes] := node;
      numNodes := numNodes + 1;
      paths := paths + [paths[popd.slot] + [d]];
      assert g_nodes[..numNodes] == old(g_nodes[..numNodes]) + [node];
    }

    /** Follow edge d out of a popped node: a new slot, pushed onto the frontier. */
    method Extend(q: Query, pq: PQHeap<Ref>, popd: Ref, d: nat)
      requires Valid(q) && FrontierOk(pq) && numNodes < EXPLORE_SIZE && pq.count + 1 < pq.heap.Length
      requires popd.slot < numNodes && popd.node == g_nodes[popd.slot]
      requires Open(q.t, popd.node.tn, q.train) && HasEdge(q.t, popd.node.tn, d)
      requires LedgerOk(q, pq) && popd.slot in closed && paths[popd.slot] + [d] !in paths
      modifies this, g_nodes, pq, pq.heap
      ensures Valid(q) && FrontierOk(pq) && numNodes == old(numNodes) + 1 && pq.count == old(pq.count) + 1
      ensures LedgerOk(q, pq) && closed == old(closed)
      ensures var child := Ref(old(numNodes), ChildNode(q.t, popd, d));
        && pq.Contents() == old(pq.Contents()) + multiset{child} && NodeCost(popd) <= NodeCost(child)
        && g_nodes[..numNodes] == old(g_nodes[..numNodes]) + [child.node]
      ensures paths == old(paths) + [old(paths)[popd.slot] + [d]]
    {
      hide Tree, QueryOk, Live, TreeOrdered, Points, Ledger;
      ghost var frontier, walk := pq.Contents(), paths[popd.slot] + [d];
      PointsGrow(g_nodes[..numNodes], frontier, ChildNode(q.t, popd, d));
      ChildLedger(q, g_nodes[..numNodes], paths, frontier, closed, ChildNode(q.t, popd, d), walk);
      var child := NewSlot(q, popd, d);
      pq.Push(child);
    }

    /** The search keeps its books: no walk is explored twice. */
    ghost predicate LedgerOk(q: Query, pq: PQHeap<Ref>)
      reads this, g_nodes, pq, pq.heap
    {
      && numNodes <= g_nodes.Length && pq.count < pq.heap.Length
      && Ledger(q, g_nodes[..numNodes], paths, pq.Contents(), closed)
    }

    /** Everything the search knows between two pops; `last` is the latest popped cost. */
    ghost predicate Searching(q: Query, pq: PQHeap<Ref>, last: int)
      reads this, g_nodes, pq, pq.heap
    {
      && Valid(q) && FrontierOk(pq) && pq.heap.Length == 1 + Pow2(HEAP_HEIGHT)
      && Covered(q, paths, pq.Contents()) && AllAtLeast(pq.Contents(), last) && LedgerOk(q, pq)
    }

    method Start(q: Query) returns (pq: PQHeap<Ref>)
      requires QueryOk(q) && g_nodes.Length == EXPLORE_SIZE
      modifies this, g_nodes
      ensures Searching(q, pq, 0) && numNodes == 1 == pq.count && closed == {} && fresh(pq) && fresh(pq.heap)
    {
      hide Tree, QueryOk, Covered, Ledger, Live, TreeOrdered, Pow2;
      StartTree(q);
      var start := PathNode(0, q.src, 0, 0, false);
      g_nodes[0] := start;
      numNodes := 1;
      paths, closed := [[]], {};
      assert g_nodes[..1] == [start];
      StartLedger(q, Ref(0, start));
      pq := new PQHeap(HEAP_HEIGHT, NodeCost);
      pq.Push(Ref(0, start));
      assert pq.Contents() == multiset{Ref(0, start)};
    }

    /** The same, just after `popd` was taken from the frontier `before`. */
    ghost predicate Popped(q: Query, pq: PQHeap<Ref>, popd: Ref, before: multiset<Ref>)
      reads this, g_nodes, pq, pq.heap
    {
      && Valid(q) && FrontierOk(pq) && pq.heap.Length == 1 + Pow2(HEAP_HEIGHT)
      && popd in before && pq.Contents() == before - multiset{popd} && Points(g_nodes[..numNodes], before)
      && Covered(q, paths, before) && AllAtLeast(before, NodeCost(popd))
      && LedgerOk(q, pq) && popd.slot in closed
    }

    /** ... and it has no children yet. */
    ghost predicate Childless(popd: Ref)
      reads this
    {
      popd.slot < |paths| && forall d :: paths[popd.slot] + [d] !in paths
    }

    method PushAhead(q: Query, pq: PQHeap<Ref>, popd: Ref) returns (ghost children: seq<Ref>)
      requires Valid(q) && FrontierOk(pq) && numNodes + 1 <= EXPLORE_SIZE && pq.count + 1 < pq.heap.Length
      requires popd.slot < numNodes && popd.node == g_nodes[popd.slot] && Open(q.t, popd.node.tn, q.train)
      requires |q.t[popd.node.tn].edge| == 1
      requires LedgerOk(q, pq) && popd.slot in closed && Childless(popd)
      modifies this, g_nodes, pq, pq.heap
      ensures Valid(q) && FrontierOk(pq) && numNodes > old(numNodes)
        && pq.count - old(pq.count) == numNodes - old(numNodes)
      ensures LedgerOk(q, pq) && closed == old(closed) && numNodes <= old(numNodes) + 2
      ensures old(paths) <= paths && Family(q.t, old(paths), paths, pq.Contents(), popd, children)
      ensures pq.Contents() == old(pq.Contents()) + multiset(children)
    {
      hide Tree, QueryOk, Live, TreeOrdered, Points, Ledger;
      children := [Ref(numNodes, ChildNode(q.t, popd, DIR_AHEAD))];
      Extend(q, pq, popd, DIR_AHEAD);
    }

    method PushBoth(q: Query, pq: PQHeap<Ref>, popd: Ref) returns (ghost children: seq<Ref>)
      requires Valid(q) && FrontierOk(pq) && numNodes + 2 <= EXPLORE_SIZE && pq.count + 2 < pq.heap.Length
      requires popd.slot < numNodes && popd.node == g_nodes[popd.slot] && Open(q.t, popd.node.tn, q.train)
      requires |q.t[popd.node.tn].edge| == 2
      requires LedgerOk(q, pq) && popd.slot in closed && Childless(popd)
      modifies this, g_nodes, pq, pq.heap
      ensures Valid(q) && FrontierOk(pq) && numNodes > old(numNodes)
        && pq.count - old(pq.count) == numNodes - old(numNodes)
      ensures LedgerOk(q, pq) && closed == old(closed) && numNodes <= old(numNodes) + 2
      ensures old(paths) <= paths && Family(q.t, old(paths), paths, pq.Contents(), popd, children)
      ensures pq.Contents() == old(pq.Contents()) + multiset(children)
    {
      hide Tree, QueryOk, Live, TreeOrdered, Points, Ledger;
      ghost var straight := Ref(numNodes, ChildNode(q.t, popd, DIR_STRAIGHT));
      ghost var curved := Ref(numNodes + 1, ChildNode(q.t, popd, DIR_CURVED));
      children := [straight, curved];
      Extend(q, pq, popd, DIR_STRAIGHT);
      assert popd.node == g_nodes[..old(numNodes) + 1][popd.slot];
      assert paths[popd.slot] + [DIR_CURVED] !in paths by {
        var p := paths[popd.slot];
        assert (p + [DIR_CURVED])[|p|] != (p + [DIR_STRAIGHT])[|p|];
      }
      Extend(q, pq, popd, DIR_CURVED);
      assert multiset(children) == multiset{straight, curved};
    }

    /** There is room for this many children. */
    predicate HasRoom(pq: PQHeap<Ref>, children: nat)
      reads this, pq, pq.heap
    {
      numNodes + children <= EXPLORE_SIZE && pq.count + children < pq.heap.Length
    }

    /** Put all children of a popped node on the frontier. */
    method Expand(q: Query, pq: PQHeap<Ref>, popd: Ref, ghost before: multiset<Ref>)
      requires Popped(q, pq, popd, before)
      requires popd.node.tn != q.dst && Open(q.t, popd.node.tn, q.train)
      requires NodeOk(q.t, popd.node.tn) && HasRoom(pq, |q.t[popd.node.tn].edge|) && Childless(popd)
      modifies this, g_nodes, pq, pq.heap
      ensures Searching(q, pq, NodeCost(popd)) && closed == old(closed)
      ensures old(numNodes) < numNodes <= old(numNodes) + 2 && pq.count - old(pq.count) == numNodes - old(numNodes)
    {
      hide Tree, QueryOk, Live, TreeOrdered, Covered, Family, AllAtLeast, Pow2, Ledger;
      ghost var g, ps := g_nodes[..numNodes], paths;
      assert popd.slot < numNodes && popd.node == g_nodes[popd.slot];
      ghost var children;
      if q.t[popd.node.tn].kind == Branch {
        children := PushBoth(q, pq, popd);
      } else {
        children := PushAhead(q, pq, popd);
      }
      ReplaceByChildren(q, g, ps, before, popd, paths, pq.Contents(), children);
    }

    /** A cheapest frontier node leaves the frontier. */
    method TakeCheapest(q: Query, pq: PQHeap<Ref>, ghost last: int) returns (popd: Ref)
      requires Searching(q, pq, last) && pq.count > 0
      modifies pq, pq.heap
      ensures FrontierOk(pq) && pq.count == old(pq.count) - 1 && last <= NodeCost(popd)
      ensures popd in old(pq.Contents()) && pq.Contents() == old(pq.Contents()) - multiset{popd}
      ensures AllAtLeast(old(pq.Contents()), NodeCost(popd)) && Points(g_nodes[..numNodes], old(pq.Contents()))
      ensures popd.slot < numNodes && popd.node == g_nodes[popd.slot]
    {
      hide Tree, QueryOk, Live, TreeOrdered, Covered, Points, Pow2, Ledger;
      ghost var before := pq.Contents();
      popd := pq.Pop();
      FewerPoint(g_nodes[..numNodes], before, popd);
    }

    method PopNext(q: Query, pq: PQHeap<Ref>, ghost last: int) returns (popd: Ref, ghost before: multiset<Ref>)
      requires Searching(q, pq, last) && pq.count > 0
      modifies pq, pq.heap, `closed
      ensures Popped(q, pq, popd, before) && last <= NodeCost(popd) && pq.count == old(pq.count) - 1
      ensures Childless(popd) && |closed| == |old(closed)| + 1
      ensures popd.slot < numNodes && popd.node == g_nodes[popd.slot]
    {
      hide Tree, QueryOk, Live, TreeOrdered, Covered, Points, Pow2, Ledger, AllAtLeast;
      before := pq.Contents();
      popd := TakeCheapest(q, pq, last);
      PopLedger(q, g_nodes[..numNodes], paths, before, closed, popd);
      closed := closed + {popd.slot};
    }

    lemma FewerPoint(g: seq<PathNode>, before: multiset<Ref>, popd: Ref)
      requires Points(g, before) && popd in before
      ensures Points(g, before - multiset{popd}) && popd.slot < |g| && popd.node == g[popd.slot]
    {
    }

    /** Dropping what was popped: the node is an exit, or another train's. */
    lemma Dropped(q: Query, pq: PQHeap<Ref>, popd: Ref, before: multiset<Ref>)
      requires Popped(q, pq, popd, before) && popd.node.tn != q.dst && !Open(q.t, popd.node.tn, q.train)
      ensures Searching(q, pq, NodeCost(popd))
    {
      DropClosed(q, g_nodes[..numNodes], paths, before, popd);
    }

    /** The search loop. The costs popped never decrease; a frontier that runs empty means
        there is no route; otherwise, unless a table is full, the route found is shortest. No table
        gets full while fewer than 4096 open walks are no dearer than a route. */
    method Search(q: Query) returns (outcome: Outcome, end: nat, ghost popped: seq<int>)
      requires QueryOk(q) && g_nodes.Length == EXPLORE_SIZE
      modifies this, g_nodes
      ensures Valid(q) && SortedCosts(popped)
      ensures outcome == NoRoute ==> forall dirs :: !Goal(q, dirs)
      ensures outcome == OutOfRoom ==> ManyWalks(q)
      ensures outcome == Found ==>
        && end < numNodes && Shortest(q.t, q.src, q.dst, q.train, paths[end])
        && popped != [] && popped[|popped| - 1] == Cost(q.t, q.src, paths[end])
    {
      hide Tree, QueryOk, Live, TreeOrdered, Covered, Points, AllAtLeast, Pow2, Shortest, Ledger, ManyWalks, Childless;
      var pq := Start(q);
      end, popped := 0, [];
      ghost var last := 0;
      while true
        invariant Searching(q, pq, last) && fresh(pq) && fresh(pq.heap) && SortedCosts(popped)
        invariant forall i :: 0 <= i < |popped| ==> popped[i] <= last
        invariant pq.count + |closed| == numNodes <= 1 + 2 * |closed|
        decreases EXPLORE_SIZE - numNodes, pq.count
      {
        if pq.count == 0 {
          NothingLeft(q, pq, last);
          return NoRoute, 0, popped;
        }
        var popd; ghost var before;
        popd, before := PopNext(q, pq, last);
        last := NodeCost(popd);
        popped := popped + [last];
        if popd.node.tn == q.dst {
          ReachedGoal(q, pq, popd, before);
          return Found, popd.slot, popped;
        }
        PoppedOnTrack(q, popd);
        if q.t[popd.node.tn].kind == Exit {
          Dropped(q, pq, popd, before);
          continue;
        }
        if q.t[popd.node.tn].owner != -1 && q.t[popd.node.tn].owner != q.train {
          Dropped(q, pq, popd, before);
          continue;
        }
        DegreeAtMostTwo(q, popd.node.tn);
        if !HasRoom(pq, |q.t[popd.node.tn].edge|) {
          HeapSize();
          ManyClosed(q, g_nodes[..numNodes], paths, pq.Contents(), closed);
          return OutOfRoom, 0, popped;
        }
        Expand(q, pq, popd, before);
      }
    }

    lemma DegreeAtMostTwo(q: Query, n: nat)
      requires QueryOk(q) && n < |q.t|
      ensures NodeOk(q.t, n) && |q.t[n].edge| <= 2
    {
      assert NodeOk(q.t, n);
    }

    lemma HeapSize()
      ensures Pow2(HEAP_HEIGHT) == 4096
    {
      assert Pow2(4) == 16 && Pow2(8) == 256;
    }

    lemma NothingLeft(q: Query, pq: PQHeap<Ref>, last: int)
      requires Searching(q, pq, last) && pq.count == 0
      ensures forall dirs :: !Goal(q, dirs)
    {
      assert pq.Contents() == multiset{};
      EmptyFrontier(q, paths);
    }

    lemma ReachedGoal(q: Query, pq: PQHeap<Ref>, popd: Ref, before: multiset<Ref>)
      requires Popped(q, pq, popd, before) && popd.node.tn == q.dst
      ensures popd.slot < numNodes && Shortest(q.t, q.src, q.dst, q.train, paths[popd.slot])
      ensures NodeCost(popd) == Cost(q.t, q.src, paths[popd.slot])
    {
      PoppedGoalIsShortest(q, g_nodes[..numNodes], paths, before, popd);
      assert SlotOk(q, g_nodes[..numNodes], paths, popd.slot);
    }

    /** Nodes in the tree are nodes of the track. */
    lemma PoppedOnTrack(q: Query, popd: Ref)
      requires Valid(q) && popd.slot < numNodes && popd.node == g_nodes[popd.slot]
      ensures popd.node.tn < |q.t|
    {
      assert SlotOk(q, g_nodes[..numNodes], paths, popd.slot);
      WalkBounds(q.t, q.src, paths[popd.slot]);
    }

    /** Follow `from` back to the start, writing the route last node first. The buffer is
        long enough for any route without repeated nodes. */
    method ReadBack(q: Query, end: nat, pb: PathBuffer) returns (length: nat)
      requires Valid(q) && end < numNodes && |paths[end]| < TRACK_MAX
      requires pb.tracknodes.Length == TRACK_MAX && pb.reverse.Length == TRACK_MAX
      modifies pb, pb.tracknodes, pb.reverse
      ensures length == |paths[end]| + 1 == pb.length && pb.trainNum == old(pb.trainNum)
      ensures forall k :: 0 <= k < length ==> pb.tracknodes[k] == Nodes(q.t, q.src, paths[end])[length - 1 - k]
      ensures forall k :: 0 <= k < length - 1 ==> !pb.reverse[k]
    {
      var at: nat := end;
      ghost var p := paths[end];
      length := 0;
      SlotFacts(q, end);
      assert p[..|p|] == p;
      while at != 0
        invariant Valid(q) && at < numNodes && length <= |p| && paths == old(paths)
        invariant paths[at] == p[..|p| - length]
        invariant forall k :: 0 <= k < length ==> pb.tracknodes[k] == Nodes(q.t, q.src, p)[|p| - k]
        invariant forall k :: 0 <= k < length ==> !pb.reverse[k]
        invariant pb.trainNum == old(pb.trainNum)
        decreases at
      {
        hide Tree, QueryOk;
        SlotFacts(q, at);
        NodesAt(q.t, q.src, p, |p| - length);
        assert length < TRACK_MAX;
        pb.reverse[length] := g_nodes[at].reverse;
        pb.tracknodes[length] := g_nodes[at].tn;
        length := length + 1;
        at := g_nodes[at].from;
        assert paths[at] == p[..|p| - length];
      }
      SlotFacts(q, 0);
      NodesAt(q.t, q.src, p, 0);
      pb.tracknodes[length] := g_nodes[at].tn;
      length := length + 1;
      pb.length := length;
    }

    lemma SlotFacts(q: Query, i: nat)
      requires Valid(q) && i < numNodes
      ensures g_nodes[i].tn == End(q.t, q.src, paths[i]) && !g_nodes[i].reverse
      ensures if i == 0 then paths[i] == []
        else g_nodes[i].from < i && paths[i] != [] && paths[g_nodes[i].from] == paths[i][..|paths[i]| - 1]
    {
      assert SlotOk(q, g_nodes[..numNodes], paths, i);
    }

    /** The loop with two indices that turns the route round. */
    method TurnRound(pb: PathBuffer, length: nat, ghost nodes: seq<nat>)
      requires length <= pb.tracknodes.Length && |nodes| == length
      requires forall k :: 0 <= k < length ==> pb.tracknodes[k] == nodes[length - 1 - k]
      modifies pb.tracknodes
      ensures pb.tracknodes[..length] == nodes
    {
      var i, j := 0, length - 1;
      while i < j
        invariant 0 <= i <= length && j == length - 1 - i && i <= j + 2
        invariant forall k :: 0 <= k < length && (k < i || k > j) ==> pb.tracknodes[k] == nodes[k]
        invariant forall k :: i <= k <= j ==> pb.tracknodes[k] == nodes[length - 1 - k]
      {
        var c := pb.tracknodes[i];
        pb.tracknodes[i] := pb.tracknodes[j];
        pb.tracknodes[j] := c;
        i, j := i + 1, j - 1;
      }
    }

    /** A route found is a shortest one, it repeats no node, and the buffer holds its nodes in
        order, with no reversal marked before the last of them. */
    method PlanRoute(t: Graph, src: nat, dst: nat, pb: PathBuffer) returns (outcome: Outcome, ghost dirs: seq<nat>)
      requires WellFormed(t) && PositiveCycles(t) && src < |t| && dst < |t| && g_nodes.Length == EXPLORE_SIZE
      requires pb.tracknodes.Length == TRACK_MAX && pb.reverse.Length == TRACK_MAX
      modifies this, g_nodes, pb, pb.tracknodes, pb.reverse
      ensures pb.trainNum == old(pb.trainNum)
      ensures t[src].reverse == dst ==> outcome == Found && pb.length == 0
      ensures t[src].reverse != dst && outcome == Found ==>
        && Shortest(t, src, dst, pb.trainNum, dirs) && NoRepeats(Nodes(t, src, dirs))
        && pb.length == |dirs| + 1 <= TRACK_MAX && pb.tracknodes[..pb.length] == Nodes(t, src, dirs)
        && forall k :: 0 <= k < pb.length - 1 ==> !pb.reverse[k]
      ensures outcome == OutOfRoom ==> ManyWalks(Query(t, src, dst, pb.trainNum))
      ensures !ManyWalks(Query(t, src, dst, pb.trainNum)) ==>
        outcome == Found || !exists other :: Route(t, src, dst, pb.trainNum, other)
      ensures outcome == NoRoute ==> pb.length == -1 && forall other :: !Route(t, src, dst, pb.trainNum, other)
    {
      pb.length := 0;
      dirs := [];
      if t[src].reverse == dst { return Found, []; }
      var q := Query(t, src, dst, pb.trainNum);
      var end; ghost var popped;
      outcome, end, popped := Search(q);
      match outcome {
        case Found =>
          dirs := paths[end];
          ShortestIsSimple(t, src, dst, pb.trainNum, dirs);
          hide Shortest, PositiveCycles, WellFormed, Tree;
          var length := ReadBack(q, end, pb);
          TurnRound(pb, length, Nodes(t, src, dirs));
        case NoRoute =>
          pb.length := -1;
          forall other ensures !Route(t, src, dst, pb.trainNum, other) { assert !Goal(q, other); }
        case OutOfRoom =>
      }
    }
  }
}
