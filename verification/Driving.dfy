/** The engineer's go command (user/engineer.c): plan a route, compile it, set its turnouts.
    Afterwards the walk the turnouts dictate is the planned route. */
module Driving {
  import opened Common
  import opened Bits
  import opened Track
  import opened Turnouts
  import opened Walking
  import opened RouteSearch
  import opened Planner
  import opened Ebook

  // ----- executing turnout operations -----

  ghost predicate OpOk(t: Graph, op: nat) {
    op != 0 ==> TurnopIndex(op) < |t| && ValidTurnout(t[TurnopIndex(op)].num)
  }

  function ApplyOp(t: Graph, bitmap: nat, op: nat): nat
    requires OpOk(t, op)
  {
    if op == 0 then bitmap else SetBitmap(bitmap, t[TurnopIndex(op)].num, TurnopCurve(op))
  }

  ghost function ApplyOps(t: Graph, bitmap: nat, ops: seq<nat>): nat
    requires forall op :: op in ops ==> OpOk(t, op)
  {
    if ops == [] then bitmap
    else ApplyOp(t, ApplyOps(t, bitmap, ops[..|ops| - 1]), ops[|ops| - 1])
  }

  /** The operation of a path node is decoded to that node and the direction the path takes;
      at other nodes than branches there is none. */
  lemma OperationOfStep(t: Graph, n: nat, d: nat)
    requires Drivable(t) && HasEdge(t, n, d)
    ensures var op := Lookahead(t, n, t[n].edge[d].dest);
      && OpOk(t, op)
      && (t[n].kind == Branch ==> op != 0 && TurnopIndex(op) == n && (TurnopCurve(op) <==> d == DIR_CURVED))
      && (t[n].kind != Branch ==> op == 0)
  {
    assert NodeOk(t, n);
  }

  /** Two branches of a drivable track never share a turnout. */
  lemma BranchesHaveOwnTurnouts(t: Graph, m: nat, n: nat)
    requires TurnoutsOk(t) && m < |t| && n < |t| && t[m].kind == Branch && t[n].kind == Branch && m != n
    ensures t[m].num != t[n].num
  {
  }

  lemma NodesOnGraph(t: Graph, src: nat, dirs: seq<nat>)
    requires WellFormed(t) && src < |t|
    ensures OnGraph(t, Nodes(t, src, dirs))
  {
    forall k | 0 <= k <= |dirs| ensures Nodes(t, src, dirs)[k] < |t| {
      NodesAt(t, src, dirs, k);
      WalkBounds(t, src, dirs[..k]);
    }
  }

  lemma NoOperation(t: Graph)
    ensures OpOk(t, 0)
  {
  }

  lemma RouteOp(t: Graph, src: nat, dirs: seq<nat>, i: nat)
    requires Drivable(t) && src < |t| && Walk(t, src, dirs) && i <= |dirs|
    ensures OnGraph(t, Nodes(t, src, dirs))
    ensures var m := End(t, src, dirs[..i]);
      var op := PathOps(t, Nodes(t, src, dirs))[i];
      && m < |t| && OpOk(t, op)
      && (i < |dirs| && t[m].kind == Branch ==>
            op != 0 && TurnopIndex(op) == m && (TurnopCurve(op) <==> dirs[i] == DIR_CURVED))
      && (i == |dirs| || t[m].kind != Branch ==> op == 0)
  {
    NodesOnGraph(t, src, dirs);
    NodesAt(t, src, dirs, i);
    WalkBounds(t, src, dirs[..i]);
    PathOpsAt(t, Nodes(t, src, dirs), i);
    hide PathOps, Nodes, End, Walk, IsCurved, Lookahead, OpOk;
    if i < |dirs| {
      NodesAt(t, src, dirs, i + 1);
      WalkPrefix(t, src, dirs, i);
      assert dirs[..i + 1] == dirs[..i] + [dirs[i]];
      WalkStep(t, src, dirs[..i], dirs[i]);
      OperationOfStep(t, End(t, src, dirs[..i]), dirs[i]);
    } else {
      NoOperation(t);
    }
  }

  lemma RouteOpsOk(t: Graph, src: nat, dirs: seq<nat>)
    requires Drivable(t) && src < |t| && Walk(t, src, dirs)
    ensures OnGraph(t, Nodes(t, src, dirs))
    ensures forall op :: op in PathOps(t, Nodes(t, src, dirs)) ==> OpOk(t, op)
  {
    NodesOnGraph(t, src, dirs);
    forall i | 0 <= i <= |dirs| ensures OpOk(t, PathOps(t, Nodes(t, src, dirs))[i]) { RouteOp(t, src, dirs, i); }
  }

  ghost predicate AlignedUpTo(t: Graph, bitmap: nat, n: nat, dirs: seq<nat>, i: nat)
    requires TurnoutsOk(t)
  {
    forall k: nat :: k < i && k < |dirs| ==> StandsAt(t, bitmap, n, dirs, k)
  }

  lemma OpKeepsOthers(t: Graph, bitmap: nat, src: nat, dirs: seq<nat>, i: nat, k: nat)
    requires Drivable(t) && src < |t| && Walk(t, src, dirs) && NoRepeats(Nodes(t, src, dirs))
    requires k < i <= |dirs| && StandsAt(t, bitmap, src, dirs, k)
    ensures OnGraph(t, Nodes(t, src, dirs)) && OpOk(t, PathOps(t, Nodes(t, src, dirs))[i])
    ensures StandsAt(t, ApplyOp(t, bitmap, PathOps(t, Nodes(t, src, dirs))[i]), src, dirs, k)
  {
    RouteOp(t, src, dirs, i);
    NodesAt(t, src, dirs, i);
    NodesAt(t, src, dirs, k);
    hide IsCurved, SetBitmap, PathOps, Nodes, End, Walk;
    var m, n := End(t, src, dirs[..k]), End(t, src, dirs[..i]);
    var op := PathOps(t, Nodes(t, src, dirs))[i];
    if op != 0 && m < |t| && t[m].kind == Branch {
      SetTurnoutSetsOnlyIt(bitmap, t[n].num, TurnopCurve(op), t[m].num);
      BranchesHaveOwnTurnouts(t, m, n);
    }
  }

  lemma OpSetsOwn(t: Graph, bitmap: nat, src: nat, dirs: seq<nat>, i: nat)
    requires Drivable(t) && src < |t| && Walk(t, src, dirs) && i < |dirs|
    ensures OnGraph(t, Nodes(t, src, dirs)) && OpOk(t, PathOps(t, Nodes(t, src, dirs))[i])
    ensures StandsAt(t, ApplyOp(t, bitmap, PathOps(t, Nodes(t, src, dirs))[i]), src, dirs, i)
  {
    hide IsCurved, SetBitmap, PathOps, Nodes, End, Walk;
    RouteOp(t, src, dirs, i);
    var m := End(t, src, dirs[..i]);
    var op := PathOps(t, Nodes(t, src, dirs))[i];
    if t[m].kind == Branch { SetTurnoutSetsOnlyIt(bitmap, t[m].num, TurnopCurve(op), t[m].num); }
  }

  /** Executing the operations of a route without repeated nodes aligns all its branches: no
      later operation undoes an earlier one. */
  lemma {:induction false} OperationsAlign(t: Graph, bitmap: nat, src: nat, dirs: seq<nat>, i: nat)
    requires Drivable(t) && src < |t| && Walk(t, src, dirs) && NoRepeats(Nodes(t, src, dirs)) && i <= |dirs| + 1
    ensures OnGraph(t, Nodes(t, src, dirs))
    ensures forall op :: op in PathOps(t, Nodes(t, src, dirs)) ==> OpOk(t, op)
    ensures AlignedUpTo(t, ApplyOps(t, bitmap, PathOps(t, Nodes(t, src, dirs))[..i]), src, dirs, i)
  {
    hide IsCurved, SetBitmap, PathOps, Nodes, End, Walk, StandsAt, ApplyOp, OpOk, NoRepeats, OnGraph;
    RouteOpsOk(t, src, dirs);
    if i > 0 {
      OperationsAlign(t, bitmap, src, dirs, i - 1);
      var ops := PathOps(t, Nodes(t, src, dirs));
      assert ops[..i][..i - 1] == ops[..i - 1];
      var before := ApplyOps(t, bitmap, ops[..i - 1]);
      var now := ApplyOp(t, before, ops[i - 1]);
      forall k: nat | k < i && k < |dirs| ensures StandsAt(t, now, src, dirs, k) {
        if k < i - 1 {
          OpKeepsOthers(t, before, src, dirs, i - 1, k);
        } else {
          OpSetsOwn(t, before, src, dirs, k);
        }
      }
    }
  }

  lemma ExecutedRouteIsAligned(t: Graph, bitmap: nat, src: nat, dirs: seq<nat>)
    requires Drivable(t) && src < |t| && Walk(t, src, dirs) && NoRepeats(Nodes(t, src, dirs))
    ensures OnGraph(t, Nodes(t, src, dirs))
    ensures forall op :: op in PathOps(t, Nodes(t, src, dirs)) ==> OpOk(t, op)
    ensures Aligned(t, ApplyOps(t, bitmap, PathOps(t, Nodes(t, src, dirs))), src, dirs)
  {
    OperationsAlign(t, bitmap, src, dirs, |dirs| + 1);
    var ops := PathOps(t, Nodes(t, src, dirs));
    assert ops[..|dirs| + 1] == ops;
  }

  // ----- the go command -----

  lemma OneInstruction(es: seq<Enstruction>)
    requires |es| == 1
    ensures AllNodes(es) == es[0].tracknodes && AllOps(es) == es[0].turnops
  {
    assert es[..0] == [];
  }

  lemma {:induction false} NoMarks(flags: seq<bool>)
    requires forall k :: 0 <= k < |flags| ==> !flags[k]
    ensures Marks(flags) == 0
  {
    if flags != [] { NoMarks(flags[..|flags| - 1]); }
  }

  class Engineer {
    const planner: Planner
    const turnouts: Turnouts
    const book: Ebook
    var eat: nat
    var targetNode: Option<nat>
    var targetOffset: int

    constructor (turnouts: Turnouts)
      ensures this.turnouts == turnouts && fresh(planner) && fresh(planner.g_nodes) && fresh(book)
      ensures planner.g_nodes.Length == EXPLORE_SIZE && book.enstructs == []
    {
      this.turnouts := turnouts;
      planner := new Planner();
      book := new Ebook();
      eat, targetNode, targetOffset := 0, None, 0;
    }

    /** Every operation in the book names a branch of the track. */
    ghost predicate BookOk(t: Graph)
      reads book
    {
      forall e, op :: e in book.enstructs && op in e.turnops ==> OpOk(t, op)
    }

    /** Sets every turnout of the instruction in order; its target becomes the train's. */
    method SetTargetFromEnstruction(t: Graph, ent: Enstruction)
      requires turnouts.bitmap < WORD && forall op :: op in ent.turnops ==> OpOk(t, op)
      modifies `targetNode, `targetOffset, turnouts
      ensures turnouts.bitmap == ApplyOps(t, old(turnouts.bitmap), ent.turnops) && turnouts.bitmap < WORD
      ensures targetNode == ent.togo && targetOffset == 0
    {
      for i := 0 to |ent.turnops|
        invariant turnouts.bitmap < WORD && turnouts.bitmap == ApplyOps(t, old(turnouts.bitmap), ent.turnops[..i])
      {
        assert ent.turnops[..i + 1][..i] == ent.turnops[..i];
        var op := ent.turnops[i];
        assert op in ent.turnops && OpOk(t, op);
        if op != 0 {
          turnouts.SetTurnout(t[TurnopIndex(op)].num, if TurnopCurve(op) then 'c' else 's');
        }
      }
      assert ent.turnops[..|ent.turnops|] == ent.turnops;
      targetNode := ent.togo;
      targetOffset := 0;
    }

    /** A route was planned and is now set: the train's target is dst, a train at src drives
        exactly the planned nodes under the new turnout positions, reaches dst for the first
        time at the end of it, and no route it might have taken is shorter. */
    ghost predicate OnItsWay(t: Graph, src: nat, dst: nat, train: int, dirs: seq<nat>)
      requires Drivable(t) && src < |t|
      reads this, turnouts
    {
      && targetNode == Some(dst) && targetOffset == 0
      && Shortest(t, src, dst, train, dirs) && dirs != []
      && (forall k :: 0 <= k <= |dirs| ==> Steps(t, turnouts.bitmap, src, k) == dirs[..k])
      && FirstReaches(t, turnouts.bitmap, src, dst, |dirs|)
    }

    /** The go command for a train at src. When planRoute declines because dst is the opposite
        of src, or has nothing to do because dst is src, the book is left as it was, and its
        first instruction, from an earlier command, is executed again. */
    method Go(t: Graph, src: nat, dst: nat, trainNum: int) returns (outcome: Outcome, ghost dirs: seq<nat>)
      requires Drivable(t) && PositiveCycles(t) && src < |t| && dst < |t|
      requires planner.g_nodes.Length == EXPLORE_SIZE && turnouts.bitmap < WORD
      requires BookOk(t)
      modifies this, planner, planner.g_nodes, turnouts, book
      ensures turnouts.bitmap < WORD && BookOk(t)
      ensures outcome == Found && dst != src && dst != t[src].reverse ==> OnItsWay(t, src, dst, trainNum, dirs)
      ensures outcome == OutOfRoom ==> ManyWalks(Query(t, src, dst, trainNum)) && book.enstructs == []
      ensures outcome == NoRoute ==> book.enstructs == [] && forall other :: !Route(t, src, dst, trainNum, other)
      ensures dst == t[src].reverse ==> outcome == Found && book.enstructs == old(book.enstructs)
      ensures outcome == Found && dst == src ==> book.enstructs == old(book.enstructs)
      ensures outcome == Found && (dst == t[src].reverse || dst == src) && old(book.enstructs) != [] ==>
        && targetNode == old(book.enstructs)[0].togo
        && turnouts.bitmap == ApplyOps(t, old(turnouts.bitmap), old(book.enstructs)[0].turnops)
    {
      hide WellFormed, PositiveCycles, Shortest, Route, AllNodes, AllOps, Marks, PathOps, Nodes, Walk, End, Steps,
        Lookahead, Starts, AtMarks;
      var pb := new PathBuffer(trainNum);
      outcome, dirs := planner.PlanRoute(t, src, dst, pb);
      if outcome == NoRoute || outcome == OutOfRoom {
        book.enstructs := [];
        return;
      }
      ghost var before := turnouts.bitmap;
      ghost var planned := pb.length >= 2;
      if t[src].reverse != dst && dst == src { ShortestToSelf(t, src, trainNum, dirs); }
      if pb.length >= 2 {
        ShortestRepeatsNothing(t, src, dst, trainNum, dirs);
        Compile(t, src, dst, trainNum, pb, dirs);
      } else {
        var r := book.MakeEbook(t, pb);
      }
      eat := 0;
      if eat < |book.enstructs| {
        var ent := book.enstructs[eat];
        eat := eat + 1;
        SetTargetFromEnstruction(t, ent);
      }
      if planned {
        ExecutedRouteIsAligned(t, before, src, dirs);
        RouteIsFollowed(t, turnouts.bitmap, src, dst, trainNum, dirs);
      } else if t[src].reverse != dst {
        EmptyRoute(t, src, dst, trainNum, dirs);
      }
    }

    /** makeEbook on a planned route: one instruction with all of it. */
    method Compile(t: Graph, src: nat, dst: nat, trainNum: int, pb: PathBuffer, ghost dirs: seq<nat>)
      requires Drivable(t) && src < |t| && Walk(t, src, dirs) && End(t, src, dirs) == dst && dirs != []
      requires pb.tracknodes.Length == TRACK_MAX && pb.reverse.Length == TRACK_MAX
        && pb.length == |dirs| + 1 <= TRACK_MAX
      requires pb.tracknodes[..pb.length] == Nodes(t, src, dirs)
      requires forall k :: 0 <= k < pb.length - 1 ==> !pb.reverse[k]
      modifies book
      ensures OnGraph(t, Nodes(t, src, dirs)) && BookOk(t) && |book.enstructs| == 1
      ensures book.enstructs[0].turnops == PathOps(t, Nodes(t, src, dirs)) && book.enstructs[0].togo == Some(dst)
      ensures book.enstructs[0].tracknodes == Nodes(t, src, dirs)
    {
      hide Starts, AtMarks;
      NodesOnGraph(t, src, dirs);
      NoMarks(pb.reverse[1..pb.length - 1]);
      RouteOpsOk(t, src, dirs);
      NodesAt(t, src, dirs, |dirs|);
      assert dirs[..|dirs|] == dirs;
      hide AllNodes, AllOps, Marks, PathOps, Nodes, Walk, End, Lookahead;
      var r := book.MakeEbook(t, pb);
      OneInstruction(book.enstructs);
    }

    /** go, then distanceBetween: 1000 times the planned cost, if that is within 72 edges. */
    method GoAndMeasure(t: Graph, src: nat, dst: nat, trainNum: int)
      returns (outcome: Outcome, ghost dirs: seq<nat>, distance: int)
      requires Drivable(t) && PositiveCycles(t) && src < |t| && dst < |t|
      requires planner.g_nodes.Length == EXPLORE_SIZE && turnouts.bitmap < WORD
      requires BookOk(t)
      modifies this, planner, planner.g_nodes, turnouts, book
      ensures outcome == Found && dst != src && dst != t[src].reverse ==>
        && Shortest(t, src, dst, trainNum, dirs)
        && distance == if |dirs| <= TRACK_MAX / 2 then 1000 * Cost(t, src, dirs) else -1
      ensures outcome == NoRoute ==> forall other :: !Route(t, src, dst, trainNum, other)
      ensures outcome == OutOfRoom ==> ManyWalks(Query(t, src, dst, trainNum))
    {
      outcome, dirs := Go(t, src, dst, trainNum);
      distance := DistanceBetween(t, turnouts.bitmap, src, dst);
      assert outcome == Found && dst != src && dst != t[src].reverse ==> dirs[..|dirs|] == dirs;
    }
  }

  lemma ShortestToSelf(t: Graph, src: nat, train: int, dirs: seq<nat>)
    requires WellFormed(t) && PositiveCycles(t) && src < |t| && Shortest(t, src, src, train, dirs)
    ensures dirs == []
  {
    assert Route(t, src, src, train, []);
    if dirs != [] { CycleIsPositive(t, src, dirs); }
  }

  lemma EmptyRoute(t: Graph, src: nat, dst: nat, train: int, dirs: seq<nat>)
    requires Shortest(t, src, dst, train, dirs) && dirs == []
    ensures src == dst
  {
  }

  lemma ShortestRepeatsNothing(t: Graph, src: nat, dst: nat, train: int, dirs: seq<nat>)
    requires WellFormed(t) && PositiveCycles(t) && src < |t| && Shortest(t, src, dst, train, dirs)
    ensures Walk(t, src, dirs) && NoRepeats(Nodes(t, src, dirs)) && End(t, src, dirs) == dst
  {
    ShortestIsSimple(t, src, dst, train, dirs);
  }

  lemma RouteIsFollowed(t: Graph, bitmap: nat, src: nat, dst: nat, train: int, dirs: seq<nat>)
    requires Drivable(t) && PositiveCycles(t) && src < |t| && Shortest(t, src, dst, train, dirs) && dirs != []
    requires Aligned(t, bitmap, src, dirs)
    ensures forall k :: 0 <= k <= |dirs| ==> Steps(t, bitmap, src, k) == dirs[..k]
    ensures FirstReaches(t, bitmap, src, dst, |dirs|)
  {
    ShortestIsSimple(t, src, dst, train, dirs);
    AlignedWalkIsFirst(t, bitmap, src, dirs);
    forall k | 0 <= k <= |dirs| ensures Steps(t, bitmap, src, k) == dirs[..k] {
      AlignedWalkIsFollowed(t, bitmap, src, dirs, k);
    }
  }
}
