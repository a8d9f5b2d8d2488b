/** The search tree of planRoute on values: what the arena and the frontier hold, and why the
    first destination node to leave the frontier is at the end of a shortest route. */
module RouteSearch {
  import opened Common
  import opened Track

  /** One arena slot. `from` is the slot of the parent; slot 0 is the start node. */
  datatype PathNode = PathNode(from: nat, tn: nat, cost: int, length: nat, reverse: bool)

  /** A pointer into the arena with the record behind it: a slot is never changed once set. */
  datatype Ref = Ref(slot: nat, node: PathNode)

  function NodeCost(r: Ref): int {
    r.node.cost
  }

  /** What is searched for. */
  datatype Query = Query(t: Graph, src: nat, dst: nat, train: int)

  ghost predicate QueryOk(q: Query) {
    WellFormed(q.t) && q.src < |q.t| && q.dst < |q.t|
  }

  /** A walk from the start in which every node that is left is open to the train. */
  ghost predicate Leads(q: Query, dirs: seq<nat>) {
    Walk(q.t, q.src, dirs) && forall k :: 0 <= k < |dirs| ==> Open(q.t, End(q.t, q.src, dirs[..k]), q.train)
  }

  ghost predicate Goal(q: Query, dirs: seq<nat>) {
    Route(q.t, q.src, q.dst, q.train, dirs)
  }

  /** Slot i holds the end and the measures of the walk paths[i], and its parent's walk is one
      edge shorter. */
  ghost predicate SlotOk(q: Query, g: seq<PathNode>, paths: seq<seq<nat>>, i: nat)
    requires |g| == |paths| && i < |g|
  {
    var p := paths[i];
    && Leads(q, p) && g[i].tn == End(q.t, q.src, p) && g[i].cost == Cost(q.t, q.src, p) && g[i].length == |p|
    && !g[i].reverse
    && (if i == 0 then p == [] else g[i].from < i && p != [] && paths[g[i].from] == p[..|p| - 1])
  }

  ghost predicate Tree(q: Query, g: seq<PathNode>, paths: seq<seq<nat>>) {
    |g| == |paths| > 0 && forall i :: 0 <= i < |g| ==> SlotOk(q, g, paths, i)
  }

  ghost predicate Points(g: seq<PathNode>, frontier: multiset<Ref>) {
    forall r :: r in frontier ==> r.slot < |g| && r.node == g[r.slot]
  }

  ghost predicate CoveredBy(paths: seq<seq<nat>>, frontier: multiset<Ref>, dirs: seq<nat>) {
    exists r :: r in frontier && r.slot < |paths| && paths[r.slot] <= dirs
  }

  /** Every route to the destination starts with the walk of some frontier node. */
  ghost predicate Covered(q: Query, paths: seq<seq<nat>>, frontier: multiset<Ref>) {
    forall dirs :: Goal(q, dirs) ==> CoveredBy(paths, frontier, dirs)
  }

  ghost predicate AllAtLeast(frontier: multiset<Ref>, cost: int) {
    forall r :: r in frontier ==> cost <= NodeCost(r)
  }

  lemma GoalPrefix(q: Query, dirs: seq<nat>, k: nat)
    requires Goal(q, dirs) && k < |dirs|
    ensures Open(q.t, End(q.t, q.src, dirs[..k]), q.train) && HasEdge(q.t, End(q.t, q.src, dirs[..k]), dirs[k])
  {
    WalkPrefix(q.t, q.src, dirs, k);
  }

  /** A popped node at the destination is the end of a shortest route. */
  lemma PoppedGoalIsShortest(q: Query, g: seq<PathNode>, paths: seq<seq<nat>>, frontier: multiset<Ref>, x: Ref)
    requires QueryOk(q) && Tree(q, g, paths) && Points(g, frontier) && Covered(q, paths, frontier)
    requires x in frontier && AllAtLeast(frontier, NodeCost(x)) && x.node.tn == q.dst
    ensures Shortest(q.t, q.src, q.dst, q.train, paths[x.slot])
  {
    assert SlotOk(q, g, paths, x.slot);
    forall other | Goal(q, other) ensures Cost(q.t, q.src, paths[x.slot]) <= Cost(q.t, q.src, other) {
      assert CoveredBy(paths, frontier, other);
      var r :| r in frontier && r.slot < |paths| && paths[r.slot] <= other;
      assert SlotOk(q, g, paths, r.slot);
      CostOfPrefix(q.t, q.src, paths[r.slot], other);
    }
  }

  /** A route that starts with the walk of a node other than the destination goes on from it. */
  lemma GoesOn(q: Query, g: seq<PathNode>, paths: seq<seq<nat>>, x: Ref, dirs: seq<nat>)
    requires |g| == |paths| && x.slot < |g| && x.node == g[x.slot] && SlotOk(q, g, paths, x.slot)
    requires Goal(q, dirs) && paths[x.slot] <= dirs && x.node.tn != q.dst
    ensures var k := |paths[x.slot]|;
      k < |dirs| && Open(q.t, x.node.tn, q.train) && HasEdge(q.t, x.node.tn, dirs[k])
        && paths[x.slot] + [dirs[k]] <= dirs
  {
    var p := paths[x.slot];
    assert |p| == |dirs| ==> p == dirs;
    assert dirs[..|p|] == p;
    GoalPrefix(q, dirs, |p|);
  }

  /** A popped node that is not the destination and may not be left can be dropped. */
  lemma DropClosed(q: Query, g: seq<PathNode>, paths: seq<seq<nat>>, frontier: multiset<Ref>, x: Ref)
    requires Tree(q, g, paths) && Points(g, frontier) && Covered(q, paths, frontier) && x in frontier
    requires x.node.tn != q.dst && !Open(q.t, x.node.tn, q.train)
    ensures Covered(q, paths, frontier - multiset{x})
  {
    forall dirs | Goal(q, dirs) ensures CoveredBy(paths, frontier - multiset{x}, dirs) {
      assert CoveredBy(paths, frontier, dirs);
      var r :| r in frontier && r.slot < |paths| && paths[r.slot] <= dirs;
      assert SlotOk(q, g, paths, r.slot);
      if r == x { GoesOn(q, g, paths, x, dirs); } else { assert r in frontier - multiset{x}; }
    }
  }

  /** The frontier holds the child of x along edge d. */
  ghost predicate ChildIn(
    paths: seq<seq<nat>>, paths': seq<seq<nat>>, frontier': multiset<Ref>, x: Ref, d: nat, child: Ref)
  {
    && x.slot < |paths| && child in frontier' && child.slot < |paths'|
    && paths'[child.slot] == paths[x.slot] + [d]
  }

  /** These are the children of x, one per edge, and they cost no less. */
  ghost predicate Family(
    t: Graph, paths: seq<seq<nat>>, paths': seq<seq<nat>>, frontier': multiset<Ref>, x: Ref, children: seq<Ref>)
  {
    && x.node.tn < |t| && |children| == |t[x.node.tn].edge|
    && forall d :: 0 <= d < |children| ==>
         ChildIn(paths, paths', frontier', x, d, children[d]) && NodeCost(x) <= NodeCost(children[d])
  }

  /** A popped node may be replaced by all its children. */
  lemma ReplaceByChildren(q: Query, g: seq<PathNode>, paths: seq<seq<nat>>, frontier: multiset<Ref>, x: Ref,
                          paths': seq<seq<nat>>, frontier': multiset<Ref>, children: seq<Ref>)
    requires Tree(q, g, paths) && Points(g, frontier) && Covered(q, paths, frontier) && x in frontier
    requires x.node.tn != q.dst && paths <= paths' && frontier' == frontier - multiset{x} + multiset(children)
    requires Family(q.t, paths, paths', frontier', x, children)
    requires AllAtLeast(frontier, NodeCost(x))
    ensures Covered(q, paths', frontier') && AllAtLeast(frontier', NodeCost(x))
  {
    ChildrenAtLeast(frontier, x, children);
    forall dirs | Goal(q, dirs) ensures CoveredBy(paths', frontier', dirs) {
      assert CoveredBy(paths, frontier, dirs);
      var r :| r in frontier && r.slot < |paths| && paths[r.slot] <= dirs;
      if r == x {
        assert SlotOk(q, g, paths, x.slot);
        GoesOn(q, g, paths, x, dirs);
        var d := dirs[|paths[x.slot]|];
        assert ChildIn(paths, paths', frontier', x, d, children[d]);
      } else {
        assert r in frontier - multiset{x};
        assert paths'[r.slot] == paths[r.slot];
      }
    }
  }

  /** The record setPathNode writes for edge d out of x. */
  function ChildNode(t: Graph, x: Ref, d: nat): PathNode
    requires HasEdge(t, x.node.tn, d)
  {
    var e := t[x.node.tn].edge[d];
    PathNode(x.slot, e.dest, x.node.cost + e.dist, x.node.length + 1, false)
  }

  lemma ExtendTree(q: Query, g: seq<PathNode>, paths: seq<seq<nat>>, x: Ref, d: nat)
    requires QueryOk(q) && Tree(q, g, paths) && x.slot < |g| && x.node == g[x.slot]
    requires Open(q.t, x.node.tn, q.train) && HasEdge(q.t, x.node.tn, d)
    ensures Tree(q, g + [ChildNode(q.t, x, d)], paths + [paths[x.slot] + [d]])
    ensures NodeCost(x) <= ChildNode(q.t, x, d).cost
  {
    var p := paths[x.slot];
    assert SlotOk(q, g, paths, x.slot);
    WalkStep(q.t, q.src, p, d);
    assert (p + [d])[..|p|] == p;
    forall k | 0 <= k < |p + [d]| ensures Open(q.t, End(q.t, q.src, (p + [d])[..k]), q.train) {
      if k < |p| { assert (p + [d])[..k] == p[..k]; }
    }
    assert NodeOk(q.t, x.node.tn);
    var g', paths' := g + [ChildNode(q.t, x, d)], paths + [p + [d]];
    forall i | 0 <= i < |g'| ensures SlotOk(q, g', paths', i) {
      if i < |g| { assert SlotOk(q, g, paths, i); }
    }
  }

  lemma PointsGrow(g: seq<PathNode>, frontier: multiset<Ref>, node: PathNode)
    requires Points(g, frontier)
    ensures Points(g + [node], frontier + multiset{Ref(|g|, node)})
  {
  }

  lemma ChildrenAtLeast(frontier: multiset<Ref>, x: Ref, children: seq<Ref>)
    requires AllAtLeast(frontier, NodeCost(x))
    requires forall d :: 0 <= d < |children| ==> NodeCost(x) <= NodeCost(children[d])
    ensures AllAtLeast(frontier - multiset{x} + multiset(children), NodeCost(x))
  {
  }

  lemma StartTree(q: Query)
    requires QueryOk(q)
    ensures Tree(q, [PathNode(0, q.src, 0, 0, false)], [[]])
    ensures Covered(q, [[]], multiset{Ref(0, PathNode(0, q.src, 0, 0, false))})
  {
    var r := Ref(0, PathNode(0, q.src, 0, 0, false));
    forall dirs | Goal(q, dirs) ensures CoveredBy([[]], multiset{r}, dirs) {
      assert [[]][r.slot] <= dirs;
    }
  }

  /** With nothing left on the frontier there is no route at all. */
  lemma EmptyFrontier(q: Query, paths: seq<seq<nat>>)
    requires Covered(q, paths, multiset{})
    ensures forall dirs :: !Goal(q, dirs)
  {
    forall dirs ensures !Goal(q, dirs) {
      assert Goal(q, dirs) ==> CoveredBy(paths, multiset{}, dirs);
    }
  }

  lemma {:induction false} WalksAreShort(q: Query, g: seq<PathNode>, paths: seq<seq<nat>>, i: nat)
    requires Tree(q, g, paths) && i < |g|
    ensures |paths[i]| <= i
  {
    assert SlotOk(q, g, paths, i);
    if i > 0 { WalksAreShort(q, g, paths, g[i].from); }
  }

  /** No cost in an arena of 8192 slots overflows a 32-bit int. */
  lemma CostsFit(q: Query, g: seq<PathNode>, paths: seq<seq<nat>>, i: nat)
    requires QueryOk(q) && Tree(q, g, paths) && |g| <= 8192 && i < |g|
    ensures 0 <= g[i].cost < 0x8000_0000
  {
    assert SlotOk(q, g, paths, i);
    WalksAreShort(q, g, paths, i);
    WalkBounds(q.t, q.src, paths[i]);
    assert MAX_DIST * |paths[i]| <= MAX_DIST * 8192;
  }

  // ----- how many walks it takes -----

  /** No route is cheaper than this walk. */
  ghost predicate NoDearer(q: Query, walk: seq<nat>) {
    forall dirs :: Goal(q, dirs) ==> Cost(q.t, q.src, walk) <= Cost(q.t, q.src, dirs)
  }

  /** The slots hold different walks; `closed` are the slots that were popped: every parent is among
      them, no frontier node is, and none is dearer than a route. */
  ghost predicate Ledger(q: Query, g: seq<PathNode>, paths: seq<seq<nat>>, frontier: multiset<Ref>, closed: set<nat>) {
    && |g| == |paths| && NoRepeats(paths)
    && (forall i: nat :: 0 < i < |g| ==> g[i].from in closed)
    && (forall x :: x in frontier ==> frontier[x] == 1 && x.slot !in closed)
    && forall c :: c in closed ==> c < |paths| && NoDearer(q, paths[c])
  }

  lemma StartLedger(q: Query, r: Ref)
    ensures Ledger(q, [r.node], [[]], multiset{r}, {})
  {
  }

  /** A popped node is no dearer than any route. */
  lemma PoppedIsNoDearer(q: Query, g: seq<PathNode>, paths: seq<seq<nat>>, frontier: multiset<Ref>, x: Ref)
    requires QueryOk(q) && Tree(q, g, paths) && Points(g, frontier) && Covered(q, paths, frontier)
    requires x in frontier && AllAtLeast(frontier, NodeCost(x))
    ensures x.slot < |paths| && NoDearer(q, paths[x.slot])
  {
    assert SlotOk(q, g, paths, x.slot);
    forall other | Goal(q, other) ensures Cost(q.t, q.src, paths[x.slot]) <= Cost(q.t, q.src, other) {
      assert CoveredBy(paths, frontier, other);
      var r :| r in frontier && r.slot < |paths| && paths[r.slot] <= other;
      assert SlotOk(q, g, paths, r.slot);
      CostOfPrefix(q.t, q.src, paths[r.slot], other);
    }
  }

  lemma ParentOf(q: Query, g: seq<PathNode>, paths: seq<seq<nat>>, i: nat, d: nat, j: nat)
    requires Tree(q, g, paths) && NoRepeats(paths) && i < |g| && j < |g| && paths[j] == paths[i] + [d]
    ensures j > 0 && g[j].from == i
  {
    assert SlotOk(q, g, paths, j);
    assert paths[j][..|paths[j]| - 1] == paths[i];
  }

  /** Popping closes one more slot, which has no child yet. */
  lemma PopLedger(q: Query, g: seq<PathNode>, paths: seq<seq<nat>>, frontier: multiset<Ref>, closed: set<nat>, x: Ref)
    requires QueryOk(q) && Tree(q, g, paths) && Points(g, frontier) && Covered(q, paths, frontier)
    requires x in frontier && AllAtLeast(frontier, NodeCost(x)) && Ledger(q, g, paths, frontier, closed)
    ensures Ledger(q, g, paths, frontier - multiset{x}, closed + {x.slot})
    ensures x.slot < |g| && x.slot !in closed && |closed + {x.slot}| == |closed| + 1
    ensures forall d :: paths[x.slot] + [d] !in paths
  {
    PoppedIsNoDearer(q, g, paths, frontier, x);
    hide Covered, NoDearer, AllAtLeast, QueryOk;
    var rest := frontier - multiset{x};
    forall y | y in rest ensures rest[y] == 1 && y.slot !in closed + {x.slot} {
      assert y in frontier && frontier[y] == 1;
      assert y.slot == x.slot ==> y == x;
    }
    forall d ensures paths[x.slot] + [d] !in paths {
      if paths[x.slot] + [d] in paths {
        var j: nat :| j < |paths| && paths[j] == paths[x.slot] + [d];
        ParentOf(q, g, paths, x.slot, d, j);
      }
    }
  }

  /** A child of a closed node, on a new walk, goes into a new slot. */
  lemma ChildLedger(q: Query, g: seq<PathNode>, paths: seq<seq<nat>>, frontier: multiset<Ref>, closed: set<nat>,
                    node: PathNode, walk: seq<nat>)
    requires Ledger(q, g, paths, frontier, closed) && Points(g, frontier)
    requires node.from in closed && walk !in paths
    ensures Ledger(q, g + [node], paths + [walk], frontier + multiset{Ref(|g|, node)}, closed)
  {
    hide NoDearer;
    var child := Ref(|g|, node);
    assert child !in frontier;
    forall c | c in closed ensures c < |paths + [walk]| && NoDearer(q, (paths + [walk])[c]) {
      assert (paths + [walk])[c] == paths[c];
    }
  }

  /** These are all the open walks of at most this cost. */
  ghost predicate Encloses(q: Query, walks: set<seq<nat>>, cost: int) {
    forall w :: Leads(q, w) && Cost(q.t, q.src, w) <= cost ==> w in walks
  }

  const WALKS_ENOUGH: nat := 4096

  /** There are very many open walks that are no dearer than the cheapest route. */
  ghost predicate ManyWalks(q: Query) {
    forall route, walks :: Goal(q, route) && Encloses(q, walks, Cost(q.t, q.src, route)) ==> |walks| >= WALKS_ENOUGH
  }

  lemma {:induction false} AsManyWalks(paths: seq<seq<nat>>, closed: set<nat>, walks: set<seq<nat>>)
    requires NoRepeats(paths) && forall c :: c in closed ==> c < |paths| && paths[c] in walks
    ensures |closed| <= |walks|
  {
    if closed != {} {
      var c :| c in closed;
      var fewer := walks - {paths[c]};
      forall b | b in closed - {c} ensures b < |paths| && paths[b] in fewer {
        assert if b < c then paths[b] != paths[c] else paths[c] != paths[b];
      }
      AsManyWalks(paths, closed - {c}, fewer);
    }
  }

  lemma ManyClosed(q: Query, g: seq<PathNode>, paths: seq<seq<nat>>, frontier: multiset<Ref>, closed: set<nat>)
    requires Tree(q, g, paths) && Ledger(q, g, paths, frontier, closed) && |closed| >= WALKS_ENOUGH
    ensures ManyWalks(q)
  {
    forall route, walks | Goal(q, route) && Encloses(q, walks, Cost(q.t, q.src, route))
      ensures |walks| >= WALKS_ENOUGH
    {
      forall c | c in closed ensures c < |paths| && paths[c] in walks {
        assert SlotOk(q, g, paths, c) && NoDearer(q, paths[c]);
      }
      AsManyWalks(paths, closed, walks);
    }
  }
}
