/** The track graph (track_data.h) and walks on it. A walk from a node is the sequence of
    edge numbers it takes, so parallel edges stay apart. */
module Track {
  import opened Common

  const TRACK_MAX: nat := 144
  const DIR_AHEAD: nat := 0
  const DIR_STRAIGHT: nat := 0
  const DIR_CURVED: nat := 1

  /** 72 edges of this length still measure less than 2^31 micrometres. */
  const MAX_DIST: int := 29826

  datatype Kind = Sensor | Branch | Merge | Enter | Exit

  datatype Edge = Edge(dest: nat, dist: int)

  /** `edge` holds the edges that exist: none for an exit, two for a branch, else one. */
  datatype Node = Node(owner: int, kind: Kind, num: int, reverse: nat, edge: seq<Edge>)

  type Graph = seq<Node>

  function Degree(kind: Kind): nat {
    match kind
    case Exit => 0
    case Branch => 2
    case _ => 1
  }

  ghost predicate WellFormed(t: Graph) {
    && |t| <= TRACK_MAX
    && forall n :: 0 <= n < |t| ==> NodeOk(t, n)
  }

  ghost predicate NodeOk(t: Graph, n: nat)
    requires n < |t|
  {
    && |t[n].edge| == Degree(t[n].kind) && t[n].reverse < |t|
    && forall d :: 0 <= d < |t[n].edge| ==> t[n].edge[d].dest < |t| && 0 <= t[n].edge[d].dist <= MAX_DIST
  }

  predicate HasEdge(t: Graph, n: nat, d: nat) {
    n < |t| && d < |t[n].edge|
  }

  // ----- walks -----

  /** The node at the end of the walk. */
  function End(t: Graph, n: nat, dirs: seq<nat>): nat {
    if dirs == [] then n
    else
      var m, d := End(t, n, dirs[..|dirs| - 1]), dirs[|dirs| - 1];
      if HasEdge(t, m, d) then t[m].edge[d].dest else m
  }

  /** Every edge of the walk exists. */
  predicate Walk(t: Graph, n: nat, dirs: seq<nat>) {
    dirs == [] ||
    (Walk(t, n, dirs[..|dirs| - 1]) && HasEdge(t, End(t, n, dirs[..|dirs| - 1]), dirs[|dirs| - 1]))
  }

  /** Its length in millimetres. */
  function Cost(t: Graph, n: nat, dirs: seq<nat>): int {
    if dirs == [] then 0
    else
      var m, d := End(t, n, dirs[..|dirs| - 1]), dirs[|dirs| - 1];
      Cost(t, n, dirs[..|dirs| - 1]) + if HasEdge(t, m, d) then t[m].edge[d].dist else 0
  }

  /** The nodes it visits, first to last. */
  function Nodes(t: Graph, n: nat, dirs: seq<nat>): seq<nat>
    ensures |Nodes(t, n, dirs)| == |dirs| + 1
  {
    if dirs == [] then [n] else Nodes(t, n, dirs[..|dirs| - 1]) + [End(t, n, dirs)]
  }

  lemma {:induction false} NodesAt(t: Graph, n: nat, dirs: seq<nat>, k: nat)
    requires k <= |dirs|
    ensures Nodes(t, n, dirs)[k] == End(t, n, dirs[..k])
  {
    if k == |dirs| {
      assert dirs[..k] == dirs;
    } else {
      NodesAt(t, n, dirs[..|dirs| - 1], k);
      assert dirs[..|dirs| - 1][..k] == dirs[..k];
    }
  }

  lemma WalkStep(t: Graph, n: nat, dirs: seq<nat>, d: nat)
    ensures End(t, n, dirs + [d]) ==
      if HasEdge(t, End(t, n, dirs), d) then t[End(t, n, dirs)].edge[d].dest else End(t, n, dirs)
    ensures Walk(t, n, dirs + [d]) <==> Walk(t, n, dirs) && HasEdge(t, End(t, n, dirs), d)
    ensures Cost(t, n, dirs + [d]) == Cost(t, n, dirs) +
      if HasEdge(t, End(t, n, dirs), d) then t[End(t, n, dirs)].edge[d].dist else 0
    ensures Nodes(t, n, dirs + [d]) == Nodes(t, n, dirs) + [End(t, n, dirs + [d])]
  {
    assert (dirs + [d])[..|dirs|] == dirs;
  }

  lemma {:induction false} WalkConcat(t: Graph, n: nat, a: seq<nat>, b: seq<nat>)
    ensures End(t, n, a + b) == End(t, End(t, n, a), b)
    ensures Walk(t, n, a + b) <==> Walk(t, n, a) && Walk(t, End(t, n, a), b)
    ensures Cost(t, n, a + b) == Cost(t, n, a) + Cost(t, End(t, n, a), b)
  {
    if b == [] {
      assert a + b == a;
    } else {
      var b', d := b[..|b| - 1], b[|b| - 1];
      assert a + b == (a + b') + [d] && b == b' + [d];
      WalkConcat(t, n, a, b');
      WalkStep(t, n, a + b', d);
      WalkStep(t, End(t, n, a), b', d);
    }
  }

  lemma {:induction false} WalkPrefix(t: Graph, n: nat, dirs: seq<nat>, k: nat)
    requires Walk(t, n, dirs) && k <= |dirs|
    ensures Walk(t, n, dirs[..k])
    ensures k < |dirs| ==> HasEdge(t, End(t, n, dirs[..k]), dirs[k])
  {
    if k == |dirs| {
      assert dirs[..k] == dirs;
    } else if k < |dirs| - 1 {
      WalkPrefix(t, n, dirs[..|dirs| - 1], k);
      assert dirs[..|dirs| - 1][..k] == dirs[..k];
    } else {
      WalkPrefix(t, n, dirs[..k], k);
    }
  }

  lemma {:induction false} WalkBounds(t: Graph, n: nat, dirs: seq<nat>)
    requires WellFormed(t) && n < |t|
    ensures End(t, n, dirs) < |t| && 0 <= Cost(t, n, dirs) <= MAX_DIST * |dirs|
  {
    if dirs != [] {
      var m := End(t, n, dirs[..|dirs| - 1]);
      WalkBounds(t, n, dirs[..|dirs| - 1]);
      assert NodeOk(t, m);
    }
  }

  lemma CostOfPrefix(t: Graph, n: nat, p: seq<nat>, dirs: seq<nat>)
    requires WellFormed(t) && n < |t| && p <= dirs
    ensures Cost(t, n, p) <= Cost(t, n, dirs)
  {
    assert dirs == p + dirs[|p|..];
    WalkConcat(t, n, p, dirs[|p|..]);
    WalkBounds(t, n, p);
    WalkBounds(t, End(t, n, p), dirs[|p|..]);
  }

  // ----- routes -----

  /** A train may leave this node: it is not an exit and belongs to no other train. */
  predicate Open(t: Graph, n: nat, train: int) {
    n < |t| && t[n].kind != Exit && (t[n].owner == -1 || t[n].owner == train)
  }

  /** A walk from src to dst in which every node that is left is open to the train. */
  ghost predicate Route(t: Graph, src: nat, dst: nat, train: int, dirs: seq<nat>) {
    && Walk(t, src, dirs) && End(t, src, dirs) == dst
    && forall k :: 0 <= k < |dirs| ==> Open(t, End(t, src, dirs[..k]), train)
  }

  ghost predicate Shortest(t: Graph, src: nat, dst: nat, train: int, dirs: seq<nat>) {
    && Route(t, src, dst, train, dirs)
    && forall other :: Route(t, src, dst, train, other) ==> Cost(t, src, dirs) <= Cost(t, src, other)
  }

  // ----- cycles -----

  ghost predicate PositiveCycles(t: Graph) {
    forall n, dirs :: 0 <= n < |t| && dirs != [] && Walk(t, n, dirs) && End(t, n, dirs) == n ==> Cost(t, n, dirs) > 0
  }

  /** Cutting a cycle out of a route leaves a route that is shorter by the cycle. */
  lemma CutCycle(t: Graph, src: nat, dst: nat, train: int, dirs: seq<nat>, i: nat, j: nat)
    requires Route(t, src, dst, train, dirs) && i < j <= |dirs|
    requires End(t, src, dirs[..i]) == End(t, src, dirs[..j])
    ensures Route(t, src, dst, train, dirs[..i] + dirs[j..])
    ensures var m, cycle := End(t, src, dirs[..i]), dirs[i..j];
      && cycle != [] && Walk(t, m, cycle) && End(t, m, cycle) == m
      && Cost(t, src, dirs[..i] + dirs[j..]) == Cost(t, src, dirs) - Cost(t, m, cycle)
  {
    hide Walk, End, Cost, Open;
    var a, b, c := dirs[..i], dirs[i..j], dirs[j..];
    assert dirs == (a + b) + c && dirs[..j] == a + b;
    WalkConcat(t, src, a + b, c);
    WalkConcat(t, src, a, b);
    WalkConcat(t, src, a, c);
    forall k | 0 <= k < |a + c| ensures Open(t, End(t, src, (a + c)[..k]), train) {
      CutPoint(t, src, a, b, c, k);
    }
  }

  /** The node k edges along the shorter walk is one of the longer walk. */
  lemma CutPoint(t: Graph, src: nat, a: seq<nat>, b: seq<nat>, c: seq<nat>, k: nat)
    requires End(t, src, a) == End(t, src, a + b) && k < |a + c|
    ensures var dirs := (a + b) + c; var m := if k <= |a| then k else k + |b|;
      End(t, src, (a + c)[..k]) == End(t, src, dirs[..m]) && m < |dirs|
  {
    hide End, Walk, Cost;
    var dirs := (a + b) + c;
    if k <= |a| {
      assert (a + c)[..k] == dirs[..k];
    } else {
      assert (a + c)[..k] == a + c[..k - |a|];
      assert dirs[..k + |b|] == (a + b) + c[..k - |a|];
      WalkConcat(t, src, a, c[..k - |a|]);
      WalkConcat(t, src, a + b, c[..k - |a|]);
    }
  }

  lemma CycleIsPositive(t: Graph, n: nat, cycle: seq<nat>)
    requires PositiveCycles(t) && n < |t| && cycle != [] && Walk(t, n, cycle) && End(t, n, cycle) == n
    ensures Cost(t, n, cycle) > 0
  {
  }

  lemma ShortestHasNoCycle(t: Graph, src: nat, dst: nat, train: int, dirs: seq<nat>, i: nat, j: nat)
    requires WellFormed(t) && PositiveCycles(t) && src < |t| && Shortest(t, src, dst, train, dirs) && i < j <= |dirs|
    ensures End(t, src, dirs[..i]) != End(t, src, dirs[..j])
  {
    WalkBounds(t, src, dirs[..i]);
    if End(t, src, dirs[..i]) == End(t, src, dirs[..j]) {
      CutCycle(t, src, dst, train, dirs, i, j);
      CycleIsPositive(t, End(t, src, dirs[..i]), dirs[i..j]);
    }
  }

  /** Where every cycle has positive length, a shortest route visits no node twice. */
  lemma ShortestIsSimple(t: Graph, src: nat, dst: nat, train: int, dirs: seq<nat>)
    requires WellFormed(t) && PositiveCycles(t) && src < |t| && Shortest(t, src, dst, train, dirs)
    ensures NoRepeats(Nodes(t, src, dirs)) && |dirs| < |t|
  {
    var nodes := Nodes(t, src, dirs);
    forall i, j | 0 <= i < j < |nodes| ensures nodes[i] != nodes[j] {
      NodesAt(t, src, dirs, i);
      NodesAt(t, src, dirs, j);
      ShortestHasNoCycle(t, src, dst, train, dirs, i, j);
    }
    forall k | 0 <= k < |nodes| ensures nodes[k] < |t| {
      NodesAt(t, src, dirs, k);
      WalkBounds(t, src, dirs[..k]);
    }
    Pigeonhole(nodes, |t|);
  }

  lemma {:induction false} Pigeonhole(s: seq<nat>, n: nat)
    requires NoRepeats(s) && forall k :: 0 <= k < |s| ==> s[k] < n
    ensures |s| <= n
  {
    if s == [] {
    } else if n - 1 in s {
      var k :| 0 <= k < |s| && s[k] == n - 1;
      var rest := s[..k] + s[k + 1..];
      assert forall i :: 0 <= i < |rest| ==> rest[i] == if i < k then s[i] else s[i + 1];
      Pigeonhole(rest, n - 1);
    } else {
      assert s[0] < n;
      Pigeonhole(s, n - 1);
    }
  }
}
