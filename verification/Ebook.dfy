/** Compiling a route into engineer instructions (makeEbook) and executing an instruction's
    turnout operations (setTargetFromEnstruction). */
module Ebook {
  import opened Common
  import opened Track
  import opened Planner

  const MAX_EBOOK_LENGTH: nat := TRACK_MAX / 10

  /** The used prefixes of the two arrays; togo is empty until the next reversal or the end. */
  datatype Enstruction = Enstruction(id: nat, togo: Option<nat>, turnops: seq<nat>, tracknodes: seq<nat>)

  /** Branch index and direction in one number, or 0 for "nothing to set". */
  function Lookahead(t: Graph, cur: nat, next: nat): nat
    requires WellFormed(t) && cur < |t|
  {
    assert NodeOk(t, cur);
    if t[cur].kind != Branch then 0
    else if next == t[cur].edge[DIR_STRAIGHT].dest then 2 * cur
    else if next == t[cur].edge[DIR_CURVED].dest then 2 * cur + 1
    else 0
  }

  function TurnopIndex(op: nat): nat {
    op / 2
  }

  predicate TurnopCurve(op: nat) {
    op % 2 == 1
  }

  // ----- the meaning of a book -----

  function AllNodes(es: seq<Enstruction>): seq<nat> {
    if es == [] then [] else AllNodes(es[..|es| - 1]) + es[|es| - 1].tracknodes
  }

  function AllOps(es: seq<Enstruction>): seq<nat> {
    if es == [] then [] else AllOps(es[..|es| - 1]) + es[|es| - 1].turnops
  }

  /** Where in the path each instruction begins. */
  function Starts(es: seq<Enstruction>): (starts: seq<nat>)
    ensures |starts| == |es|
  {
    if es == [] then [] else Starts(es[..|es| - 1]) + [|AllNodes(es[..|es| - 1])|]
  }

  /** The instructions after the first begin at marked places before i, each further on. */
  ghost predicate AtMarks(starts: seq<nat>, flags: seq<bool>, i: nat)
    requires i <= |flags|
  {
    && (forall j: nat :: 1 <= j < |starts| ==> 1 <= starts[j] < i && flags[starts[j]])
    && (forall j: nat, k: nat :: j < k < |starts| ==> starts[j] < starts[k])
    && (starts != [] ==> starts[0] == 0)
  }

  function Marks(flags: seq<bool>): nat {
    if flags == [] then 0 else Marks(flags[..|flags| - 1]) + if flags[|flags| - 1] then 1 else 0
  }

  ghost predicate OnGraph(t: Graph, nodes: seq<nat>) {
    WellFormed(t) && forall k :: 0 <= k < |nodes| ==> nodes[k] < |t|
  }

  /** The turnout operation of every node of a path; the last one has none. */
  function PathOps(t: Graph, nodes: seq<nat>): (ops: seq<nat>)
    requires OnGraph(t, nodes) && nodes != []
    ensures |ops| == |nodes|
  {
    seq(|nodes| - 1, i requires 0 <= i < |nodes| - 1 => Lookahead(t, nodes[i], nodes[i + 1])) + [0]
  }

  /** Numbered from 0, as many operations as nodes, and every target but the last is where the
      next instruction begins. */
  ghost predicate Chained(es: seq<Enstruction>) {
    && (forall j :: 0 <= j < |es| ==> es[j].id == j && |es[j].turnops| == |es[j].tracknodes| > 0)
    && (forall j :: 0 <= j < |es| - 1 ==> es[j].togo == Some(es[j + 1].tracknodes[0]))
  }

  lemma ReplaceLast(es: seq<Enstruction>, e: Enstruction)
    requires es != []
    ensures var es' := es[|es| - 1 := e];
      AllNodes(es') == AllNodes(es[..|es| - 1]) + e.tracknodes && AllOps(es') == AllOps(es[..|es| - 1]) + e.turnops
      && Starts(es') == Starts(es)
  {
    assert es[|es| - 1 := e][..|es| - 1] == es[..|es| - 1];
  }

  lemma AppendLast(es: seq<Enstruction>, e: Enstruction)
    ensures AllNodes(es + [e]) == AllNodes(es) + e.tracknodes && AllOps(es + [e]) == AllOps(es) + e.turnops
    ensures Starts(es + [e]) == Starts(es) + [|AllNodes(es)|]
  {
    assert (es + [e])[..|es|] == es;
  }

  lemma ChainedLast(es: seq<Enstruction>, e: Enstruction)
    requires Chained(es) && es != [] && |e.turnops| == |e.tracknodes| > 0 && e.id == |es| - 1
    requires |es[|es| - 1].tracknodes| > 0 ==> e.tracknodes[0] == es[|es| - 1].tracknodes[0]
    ensures Chained(es[|es| - 1 := e])
  {
  }

  lemma ChainedMore(es: seq<Enstruction>, e: Enstruction)
    requires Chained(es) && |e.turnops| == |e.tracknodes| > 0 && e.id == |es|
    requires es != [] ==> es[|es| - 1].togo == Some(e.tracknodes[0])
    ensures Chained(es + [e])
  {
  }

  lemma LastIs(es: seq<Enstruction>)
    requires Chained(es) && es != []
    ensures var e := es[|es| - 1]; e.id == |es| - 1 && |e.turnops| == |e.tracknodes| > 0
  {
  }

  lemma MarksStep(flags: seq<bool>, i: nat)
    requires 1 <= i < |flags|
    ensures Marks(flags[1..i + 1]) == Marks(flags[1..i]) + if flags[i] then 1 else 0
  {
    assert flags[1..i + 1][..i - 1] == flags[1..i];
  }

  lemma MarksNone(flags: seq<bool>)
    requires |flags| >= 1
    ensures Marks(flags[1..1]) == 0
  {
  }

  lemma PathOpsAt(t: Graph, nodes: seq<nat>, i: nat)
    requires OnGraph(t, nodes) && i < |nodes|
    ensures PathOps(t, nodes)[i] == if i < |nodes| - 1 then Lookahead(t, nodes[i], nodes[i + 1]) else 0
  {
  }

  lemma PathStep(t: Graph, nodes: seq<nat>, i: nat)
    requires OnGraph(t, nodes) && i < |nodes| - 1
    ensures |PathOps(t, nodes)| == |nodes| && nodes[i] < |t|
    ensures nodes[..i + 1] == nodes[..i] + [nodes[i]]
    ensures PathOps(t, nodes)[..i + 1] == PathOps(t, nodes)[..i] + [Lookahead(t, nodes[i], nodes[i + 1])]
  {
    PathOpsAt(t, nodes, i);
  }

  lemma PathEnd(t: Graph, nodes: seq<nat>)
    requires OnGraph(t, nodes) && nodes != []
    ensures nodes == nodes[..|nodes| - 1] + [nodes[|nodes| - 1]]
    ensures PathOps(t, nodes) == PathOps(t, nodes)[..|nodes| - 1] + [0]
  {
    PathOpsAt(t, nodes, |nodes| - 1);
  }

  lemma {:induction false} MarksGrow(flags: seq<bool>, i: nat, n: nat)
    requires 1 <= i <= n <= |flags|
    ensures Marks(flags[1..i]) <= Marks(flags[1..n])
  {
    if i < n {
      MarksGrow(flags, i, n - 1);
      MarksStep(flags, n - 1);
    }
  }

  class Ebook {
    var enstructs: seq<Enstruction>

    constructor ()
      ensures enstructs == []
    {
      enstructs := [];
    }

    /** No reversal here: the node and its operation go to the current instruction. */
    method AddNode(node: nat, op: nat)
      requires enstructs != [] && Chained(enstructs)
      modifies this
      ensures |enstructs| == |old(enstructs)| && Chained(enstructs)
      ensures AllNodes(enstructs) == AllNodes(old(enstructs)) + [node]
        && AllOps(enstructs) == AllOps(old(enstructs)) + [op]
      ensures enstructs[|enstructs| - 1].togo == old(enstructs)[|enstructs| - 1].togo
      ensures Starts(enstructs) == Starts(old(enstructs))
    {
      hide AllNodes, AllOps, Starts, Chained;
      LastIs(enstructs);
      var last := |enstructs| - 1;
      var cur := enstructs[last];
      var cur' := cur.(tracknodes := cur.tracknodes + [node], turnops := cur.turnops + [op]);
      ReplaceLast(enstructs, cur);
      ReplaceLast(enstructs, cur');
      ChainedLast(enstructs, cur');
      assert enstructs[last := cur] == enstructs;
      enstructs := enstructs[last := cur'];
    }

    /** A reversal: the current instruction ends here and a new one begins. */
    method AddReversal(node: nat, op: nat)
      requires enstructs != [] && Chained(enstructs) && |enstructs| < MAX_EBOOK_LENGTH
      modifies this
      ensures |enstructs| == |old(enstructs)| + 1 && Chained(enstructs)
      ensures AllNodes(enstructs) == AllNodes(old(enstructs)) + [node]
        && AllOps(enstructs) == AllOps(old(enstructs)) + [op]
      ensures Starts(enstructs) == Starts(old(enstructs)) + [|AllNodes(old(enstructs))|]
    {
      hide AllNodes, AllOps, Starts, Chained;
      LastIs(enstructs);
      var last := |enstructs| - 1;
      var cur := enstructs[last].(togo := Some(node));
      ReplaceLast(enstructs, enstructs[last]);
      ReplaceLast(enstructs, cur);
      ChainedLast(enstructs, cur);
      assert enstructs[last := enstructs[last]] == enstructs;
      var e := Enstruction(last + 1, None, [op], [node]);
      AppendLast(enstructs[last := cur], e);
      ChainedMore(enstructs[last := cur], e);
      enstructs := enstructs[last := cur] + [e];
    }

    method Begin(node: nat, op: nat)
      modifies this
      ensures |enstructs| == 1 && Chained(enstructs) && AllNodes(enstructs) == [node] && AllOps(enstructs) == [op]
      ensures Starts(enstructs) == [0]
    {
      var e := Enstruction(0, Some(node), [op], [node]);
      AppendLast([], e);
      enstructs := [] + [e];
    }

    /** Nothing of the path is lost: the instructions' nodes and operations, put together, are
        the path and its operations; a new instruction begins at each interior reversal; the
        last target is the end of the path. A path of fewer than two nodes is refused and leaves
        the book as it was. */
    method MakeEbook(t: Graph, pb: PathBuffer) returns (r: int)
      requires pb.tracknodes.Length == TRACK_MAX && pb.reverse.Length == TRACK_MAX && pb.length <= TRACK_MAX
      requires pb.length >= 2 ==>
        OnGraph(t, pb.tracknodes[..pb.length]) && Marks(pb.reverse[1..pb.length - 1]) < MAX_EBOOK_LENGTH
      modifies this
      ensures pb.length < 2 ==> r == -1 && enstructs == old(enstructs)
      ensures pb.length >= 2 ==>
        var nodes := pb.tracknodes[..pb.length];
        && r == |enstructs| == 1 + Marks(pb.reverse[1..pb.length - 1]) && Chained(enstructs)
        && AllNodes(enstructs) == nodes && AllOps(enstructs) == PathOps(t, nodes)
        && enstructs[|enstructs| - 1].togo == Some(nodes[|nodes| - 1])
        && AtMarks(Starts(enstructs), pb.reverse[..], pb.length - 1)
    {
      hide AllNodes, AllOps, Marks, Chained, PathOps, Lookahead, Starts;
      if pb.length < 2 { return -1; }
      ghost var nodes := pb.tracknodes[..pb.length];
      ghost var ops := PathOps(t, nodes);
      ghost var flags := pb.reverse[..];
      assert pb.tracknodes[0] == nodes[0] && pb.tracknodes[1] == nodes[1];
      var la := Lookahead(t, pb.tracknodes[0], pb.tracknodes[1]);
      Begin(pb.tracknodes[0], la);
      PathStep(t, nodes, 0);
      MarksNone(flags);
      for i := 1 to pb.length - 1
        invariant Chained(enstructs) && |enstructs| == 1 + Marks(flags[1..i])
        invariant AllNodes(enstructs) == nodes[..i] && AllOps(enstructs) == ops[..i]
        invariant AtMarks(Starts(enstructs), flags, i)
      {
        PathStep(t, nodes, i);
        assert pb.tracknodes[i] == nodes[i] && pb.tracknodes[i + 1] == nodes[i + 1];
        la := Lookahead(t, pb.tracknodes[i], pb.tracknodes[i + 1]);
        MarksStep(flags, i);
        MarksGrow(flags, i + 1, pb.length - 1);
        if pb.reverse[i] {
          AddReversal(pb.tracknodes[i], la);
        } else {
          AddNode(pb.tracknodes[i], la);
        }
      }
      PathEnd(t, nodes);
      Finish(pb.tracknodes[pb.length - 1]);
      assert flags[1..pb.length - 1] == pb.reverse[1..pb.length - 1];
      r := |enstructs|;
    }

    /** The last node ends the last instruction. */
    method Finish(node: nat)
      requires enstructs != [] && Chained(enstructs)
      modifies this
      ensures |enstructs| == |old(enstructs)| && Chained(enstructs)
      ensures AllNodes(enstructs) == AllNodes(old(enstructs)) + [node]
        && AllOps(enstructs) == AllOps(old(enstructs)) + [0]
      ensures enstructs[|enstructs| - 1].togo == Some(node) && Starts(enstructs) == Starts(old(enstructs))
    {
      var last := |enstructs| - 1;
      ReplaceLast(enstructs, enstructs[last].(togo := Some(node)));
      enstructs := enstructs[last := enstructs[last].(togo := Some(node))];
      AddNode(node, 0);
    }
  }
}
