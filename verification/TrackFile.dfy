/** Reading a track description (track/parse_track.py): names become nodes, and each edge record
    is attached to the two directed edges that it stands for. */
module TrackFile {
  import opened Common
  import opened Track
  import opened Walking
  import opened Reversing

  const DIRS: nat := 3
  const AHEAD: nat := 0
  const STRAIGHT: nat := 1
  const CURVED: nat := 2

  /** A node and an edge as the file gives them; `dirs` are ahead, straight and curved. */
  datatype ParsedNode =
    ParsedNode(name: string, kind: Option<Kind>, num: int, reverse: Option<string>, dirs: seq<Option<string>>)
  datatype ParsedEdge = ParsedEdge(node1: string, node2: string, dist: Option<int>)

  /** A node once its names are resolved; `edge` holds the edge record of each direction. */
  datatype Record = Record(reverse: Option<nat>, dest: seq<Option<nat>>, edge: seq<Option<nat>>)

  // ----- checks on one node -----

  /** The directions that a kind of node has. */
  predicate DirsFit(kind: Kind, dirs: seq<Option<string>>)
    requires |dirs| == DIRS
  {
    match kind
    case Exit => dirs[AHEAD].None? && dirs[STRAIGHT].None? && dirs[CURVED].None?
    case Branch => dirs[AHEAD].None? && dirs[STRAIGHT].Some? && dirs[CURVED].Some?
    case _ => dirs[AHEAD].Some? && dirs[STRAIGHT].None? && dirs[CURVED].None?
  }

  function NodeErrors(p: ParsedNode): nat
    requires |p.dirs| == DIRS
  {
    (if p.kind.None? then 1 else if DirsFit(p.kind.value, p.dirs) then 0 else 1) + if p.reverse.None? then 1 else 0
  }

  // ----- names -----

  /** The node a name stands for: the last one so called. */
  function Lookup(nodes: seq<ParsedNode>, name: string): (n: Option<nat>)
    ensures n.Some? ==> n.value < |nodes| && nodes[n.value].name == name
    ensures n.None? <==> forall i: nat :: i < |nodes| ==> nodes[i].name != name
  {
    if nodes == [] then None
    else
      var last := |nodes| - 1;
      if nodes[last].name == name then Some(last) else Lookup(nodes[..last], name)
  }

  function Resolve(nodes: seq<ParsedNode>, name: Option<string>): Option<nat> {
    if name.None? then None else Lookup(nodes, name.value)
  }

  predicate Known(nodes: seq<ParsedNode>, name: Option<string>) {
    name.Some? ==> Lookup(nodes, name.value).Some?
  }

  function Resolved(nodes: seq<ParsedNode>, p: ParsedNode): Record
    requires |p.dirs| == DIRS
  {
    Record(Resolve(nodes, p.reverse),
           [Resolve(nodes, p.dirs[0]), Resolve(nodes, p.dirs[1]), Resolve(nodes, p.dirs[2])],
           [None, None, None])
  }

  ghost predicate Shaped(nodes: seq<ParsedNode>) {
    forall i: nat :: i < |nodes| ==> |nodes[i].dirs| == DIRS
  }

  ghost predicate NodeGood(nodes: seq<ParsedNode>, i: nat)
    requires Shaped(nodes) && i < |nodes|
  {
    var p := nodes[i];
    p.kind.Some? && p.reverse.Some? && DirsFit(p.kind.value, p.dirs) && Known(nodes, p.reverse)
    && Known(nodes, p.dirs[0]) && Known(nodes, p.dirs[1]) && Known(nodes, p.dirs[2])
  }

  /** Checks each node and resolves its names. */
  method ResolveNames(nodes: seq<ParsedNode>) returns (records: array<Record>, errors: nat)
    requires Shaped(nodes)
    ensures fresh(records) && records.Length == |nodes|
    ensures forall i: nat :: i < |nodes| ==> records[i] == Resolved(nodes, nodes[i])
    ensures errors == 0 <==> forall i: nat :: i < |nodes| ==> NodeGood(nodes, i)
  {
    hide Lookup;
    records := new Record[|nodes|](_ => Record(None, [], []));
    errors := 0;
    for i := 0 to |nodes|
      invariant forall j: nat :: j < i ==> records[j] == Resolved(nodes, nodes[j])
      invariant errors == 0 <==> forall j: nat :: j < i ==> NodeGood(nodes, j)
    {
      var p := nodes[i];
      errors := errors + NodeErrors(p);
      if !Known(nodes, p.reverse) { errors := errors + 1; }
      for d := 0 to DIRS
        invariant errors >= 0
        invariant errors == 0 <==>
          (forall j: nat :: j < i ==> NodeGood(nodes, j)) && NodeErrors(p) == 0 && Known(nodes, p.reverse)
          && (d > 0 ==> Known(nodes, p.dirs[0])) && (d > 1 ==> Known(nodes, p.dirs[1]))
            && (d > 2 ==> Known(nodes, p.dirs[2]))
      {
        if !Known(nodes, p.dirs[d]) { errors := errors + 1; }
      }
      ghost var known := Known(nodes, p.reverse) && Known(nodes, p.dirs[0]) && Known(nodes, p.dirs[1])
        && Known(nodes, p.dirs[2]);
      assert NodeGood(nodes, i) <==> (NodeErrors(p) == 0 && known);
      records[i] := Resolved(nodes, p);
    }
  }

  // ----- edge records -----

  ghost predicate Formed(rs: seq<Record>) {
    forall n: nat :: n < |rs| ==>
      |rs[n].dest| == |rs[n].edge| == DIRS
  }

  /** The same nodes but for their edge records. */
  ghost predicate SameNodes(rs: seq<Record>, ss: seq<Record>) {
    |rs| == |ss| && forall n: nat :: n < |rs| ==> ss[n] == rs[n].(edge := ss[n].edge)
  }

  ghost predicate Leads(r: Record, d: nat, dest: nat) {
    d < DIRS && |r.dest| == DIRS && r.dest[d] == Some(dest)
  }

  /** Exactly one direction leads to dest, and it has no edge record yet. */
  ghost predicate Free(r: Record, dest: nat, d: nat)
    requires |r.edge| == DIRS
  {
    Leads(r, d, dest) && r.edge[d].None? && forall b: nat :: Leads(r, b, dest) ==> b == d
  }

  /** The one free direction of node n that leads to dest gets edge record e. */
  ghost predicate Adds(rs: seq<Record>, ss: seq<Record>, n: nat, dest: nat, e: nat)
    requires Formed(rs) && n < |rs|
  {
    exists d: nat :: Free(rs[n], dest, d) && ss == rs[n := rs[n].(edge := rs[n].edge[d := Some(e)])]
  }

  /** The state of add_edge's loop: x is r with e attached to the directions below d that lead to
      dest, `count` of them, the first being `first`. */
  ghost predicate Marked(r: Record, x: Record, d: nat, dest: nat, e: nat, count: nat, first: nat, errors: nat) {
    && |r.edge| == |r.dest| == |x.edge| == DIRS && x == r.(edge := x.edge)
    && (forall b: nat :: b < DIRS ==> x.edge[b] == if b < d && Leads(r, b, dest) then Some(e) else r.edge[b])
    && (count == 0 <==> forall b: nat :: b < d ==> !Leads(r, b, dest))
    && (count > 0 ==> first < d && Leads(r, first, dest))
    && (count == 1 <==> count > 0 && forall b: nat :: b < d && Leads(r, b, dest) ==> b == first)
    && (errors == 0 <==> forall b: nat :: b < d && Leads(r, b, dest) ==> r.edge[b].None?)
  }

  lemma MarkStart(r: Record, dest: nat, e: nat)
    requires |r.edge| == |r.dest| == DIRS
    ensures Marked(r, r, 0, dest, e, 0, 0, 0)
  {
  }

  lemma MarkStep(r: Record, x: Record, d: nat, dest: nat, e: nat, count: nat, first: nat, errors: nat)
    requires Marked(r, x, d, dest, e, count, first, errors) && d < DIRS
    ensures |x.dest| == |x.edge| == DIRS && x.dest == r.dest
    ensures x.dest[d] == Some(dest) ==>
      Marked(r, x.(edge := x.edge[d := Some(e)]), d + 1, dest, e, count + 1, if count == 0 then d else first,
             errors + if x.edge[d] != None then 1 else 0)
    ensures x.dest[d] != Some(dest) ==> Marked(r, x, d + 1, dest, e, count, first, errors)
  {
    assert Leads(r, d, dest) <==> x.dest[d] == Some(dest);
    assert x.edge[d] == r.edge[d];
  }

  lemma MarkEnd(r: Record, x: Record, dest: nat, e: nat, count: nat, first: nat, errors: nat)
    requires Marked(r, x, DIRS, dest, e, count, first, errors)
    ensures count == 1 && errors == 0 <==> exists d: nat :: Free(r, dest, d)
    ensures count == 1 && errors == 0 ==> Free(r, dest, first) && x == r.(edge := r.edge[first := Some(e)])
  {
    if count == 1 && errors == 0 {
      assert Free(r, dest, first);
      assert x.edge == r.edge[first := Some(e)];
    }
  }

  /** add_edge: attaches edge record e to every direction that leads to dest. */
  method AddEdge(records: array<Record>, n: nat, dest: nat, e: nat) returns (errors: nat)
    requires Formed(records[..]) && n < records.Length
    modifies records
    ensures Formed(records[..]) && SameNodes(old(records[..]), records[..])
    ensures errors == 0 <==> exists d: nat :: Free(old(records[n]), dest, d)
    ensures errors == 0 ==> Adds(old(records[..]), records[..], n, dest, e)
  {
    hide Marked, Free, Leads;
    ghost var r, rs := records[n], records[..];
    errors := 0;
    var count := 0;
    ghost var first := 0;
    MarkStart(r, dest, e);
    for d := 0 to DIRS
      invariant records[..] == rs[n := records[n]] && Marked(r, records[n], d, dest, e, count, first, errors)
    {
      MarkStep(r, records[n], d, dest, e, count, first, errors);
      if records[n].dest[d] == Some(dest) {
        if records[n].edge[d] != None { errors := errors + 1; }
        records[n] := records[n].(edge := records[n].edge[d := Some(e)]);
        if count == 0 { first := d; }
        count := count + 1;
      }
    }
    MarkEnd(r, records[n], dest, e, count, first, errors);
    MarkShape(r, records[n], DIRS, dest, e, count, first, errors);
    if count != 1 { errors := errors + 1; }
  }

  lemma MarkShape(r: Record, x: Record, d: nat, dest: nat, e: nat, count: nat, first: nat, errors: nat)
    requires Marked(r, x, d, dest, e, count, first, errors)
    ensures |x.dest| == |x.edge| == DIRS && x == r.(edge := x.edge)
  {
  }

  /** A directed edge from `from` to `to` that has got edge record e. */
  datatype Arc = Arc(from: nat, to: nat, e: nat)

  ghost predicate OnlySlot(rs: seq<Record>, a: Arc, d: nat)
    requires Formed(rs)
  {
    a.from < |rs| && Leads(rs[a.from], d, a.to) && rs[a.from].edge[d] == Some(a.e)
    && forall b: nat :: Leads(rs[a.from], b, a.to) ==> b == d
  }

  ghost predicate HasSlot(rs: seq<Record>, a: Arc)
    requires Formed(rs)
  {
    exists d: nat :: OnlySlot(rs, a, d)
  }

  /** The edge records in the nodes are those of the arcs, each in the one direction it names. */
  ghost predicate Holds(rs: seq<Record>, arcs: set<Arc>)
    requires Formed(rs)
  {
    && (forall a :: a in arcs ==> HasSlot(rs, a))
    && (forall n: nat, d: nat, v: nat :: n < |rs| && Leads(rs[n], d, v) && rs[n].edge[d].Some? ==>
          Arc(n, v, rs[n].edge[d].value) in arcs)
  }

  lemma ArcAdded(rs: seq<Record>, ss: seq<Record>, arcs: set<Arc>, a: Arc)
    requires Formed(rs) && Holds(rs, arcs) && a.from < |rs| && Adds(rs, ss, a.from, a.to, a.e)
    ensures Formed(ss) && SameNodes(rs, ss) && Holds(ss, arcs + {a})
  {
    var d: nat :| Free(rs[a.from], a.to, d) && ss == rs[a.from := rs[a.from].(edge := rs[a.from].edge[d := Some(a.e)])];
    assert forall n: nat, b: nat, v: nat :: n < |rs| ==> (Leads(ss[n], b, v) <==> Leads(rs[n], b, v));
    assert OnlySlot(ss, a, d);
    forall b | b in arcs ensures HasSlot(ss, b) {
      var c: nat :| OnlySlot(rs, b, c);
      assert OnlySlot(ss, b, c);
    }
  }

  /** Taking the reverse twice leads back, and never at once. */
  ghost predicate Mirrored(rs: seq<Record>) {
    forall n: nat :: n < |rs| ==>
      rs[n].reverse.Some? && rs[n].reverse.value < |rs| && rs[n].reverse.value != n
      && rs[rs[n].reverse.value].reverse == Some(n)
  }

  /** The arc that runs back between the opposite nodes. */
  ghost function Mate(rs: seq<Record>, a: Arc): Arc
    requires Mirrored(rs) && a.from < |rs| && a.to < |rs|
  {
    Arc(rs[a.to].reverse.value, rs[a.from].reverse.value, a.e)
  }

  ghost predicate Paired(rs: seq<Record>, arcs: set<Arc>)
    requires Mirrored(rs)
  {
    forall a :: a in arcs ==> a.from < |rs| && a.to < |rs| && Mate(rs, a) in arcs
  }

  lemma SameMirror(rs: seq<Record>, ss: seq<Record>)
    requires Mirrored(rs) && SameNodes(rs, ss)
    ensures Mirrored(ss)
  {
    assert forall n: nat :: n < |rs| ==> ss[n].reverse == rs[n].reverse;
  }

  lemma SameMate(rs: seq<Record>, ss: seq<Record>, a: Arc)
    requires Mirrored(rs) && Mirrored(ss) && SameNodes(rs, ss) && a.from < |rs| && a.to < |rs|
    ensures Mate(ss, a) == Mate(rs, a)
  {
  }

  lemma MateOfMate(rs: seq<Record>, a: Arc)
    requires Mirrored(rs) && a.from < |rs| && a.to < |rs|
    ensures Mate(rs, a).from < |rs| && Mate(rs, a).to < |rs| && Mate(rs, Mate(rs, a)) == a
  {
  }

  lemma PairAdded(rs: seq<Record>, ss: seq<Record>, arcs: set<Arc>, a: Arc)
    requires Mirrored(rs) && Paired(rs, arcs) && SameNodes(rs, ss) && a.from < |rs| && a.to < |rs|
    ensures Mirrored(ss) && Paired(ss, arcs + {a} + {Mate(rs, a)})
  {
    hide Mate;
    var all := arcs + {a} + {Mate(rs, a)};
    SameMirror(rs, ss);
    MateOfMate(rs, a);
    forall b | b in all ensures b.from < |ss| && b.to < |ss| && Mate(ss, b) in all {
      assert b.from < |rs| && b.to < |rs|;
      SameMate(rs, ss, b);
    }
  }

  /** What is known of the nodes and the arcs attached so far, if there was no error. */
  ghost predicate Attached(rs: seq<Record>, arcs: set<Arc>, edges: seq<ParsedEdge>) {
    && Formed(rs) && Mirrored(rs) && Holds(rs, arcs) && Paired(rs, arcs)
    && forall a :: a in arcs ==> a.e < |edges| && edges[a.e].dist.Some?
  }

  lemma BothAdded(
    rs: seq<Record>, ss: seq<Record>, ts: seq<Record>, arcs: set<Arc>, a: Arc, edges: seq<ParsedEdge>)
    requires Attached(rs, arcs, edges) && a.from < |rs| && a.to < |rs| && a.e < |edges| && edges[a.e].dist.Some?
    requires Formed(ss) && |ss| == |rs| && Adds(rs, ss, a.from, a.to, a.e)
    requires rs[a.from].reverse.Some? && rs[a.to].reverse.Some? && rs[a.to].reverse.value < |rs|
    requires Adds(ss, ts, rs[a.to].reverse.value, rs[a.from].reverse.value, a.e)
    ensures Mirrored(rs) && Attached(ts, arcs + {a} + {Mate(rs, a)}, edges)
  {
    hide Holds, Adds, Mirrored, Paired;
    var b := Mate(rs, a);
    ArcAdded(rs, ss, arcs, a);
    ArcAdded(ss, ts, arcs + {a}, b);
    PairAdded(rs, ts, arcs, a);
  }

  lemma ReversesThere(rs: seq<Record>, arcs: set<Arc>, edges: seq<ParsedEdge>, n: nat)
    requires Attached(rs, arcs, edges) && n < |rs|
    ensures Mirrored(rs) && rs[n].reverse.Some? && rs[n].reverse.value < |rs|
  {
  }

  /** The edge record of the arc names its two nodes, in this order. */
  ghost predicate Names(nodes: seq<ParsedNode>, edges: seq<ParsedEdge>, a: Arc) {
    a.e < |edges| && Lookup(nodes, edges[a.e].node1) == Some(a.from) && Lookup(nodes, edges[a.e].node2) == Some(a.to)
  }

  /** Each arc, or the one that runs back, is named by its edge record; and the edges below n all
      have their arcs. */
  ghost predicate AllNamed(
    nodes: seq<ParsedNode>, edges: seq<ParsedEdge>, rs: seq<Record>, arcs: set<Arc>, n: nat) {
    && (forall a :: a in arcs ==> NamedBothWays(nodes, edges, rs, a))
    && (forall e: nat :: e < n ==> HasArc(nodes, edges, arcs, e))
  }

  ghost predicate NamedBothWays(nodes: seq<ParsedNode>, edges: seq<ParsedEdge>, rs: seq<Record>, a: Arc) {
    && Mirrored(rs) && a.from < |rs| && a.to < |rs|
    && (Names(nodes, edges, a) || Names(nodes, edges, Mate(rs, a)))
  }

  ghost predicate HasArc(nodes: seq<ParsedNode>, edges: seq<ParsedEdge>, arcs: set<Arc>, e: nat) {
    exists a :: a in arcs && a.e == e && Names(nodes, edges, a)
  }

  lemma NamedAdded(
    nodes: seq<ParsedNode>, edges: seq<ParsedEdge>, rs: seq<Record>, ss: seq<Record>, arcs: set<Arc>, a: Arc)
    requires Mirrored(rs) && AllNamed(nodes, edges, rs, arcs, a.e) && Names(nodes, edges, a)
    requires SameNodes(rs, ss) && a.from < |rs| && a.to < |rs|
    ensures AllNamed(nodes, edges, ss, arcs + {a} + {Mate(rs, a)}, a.e + 1)
  {
    hide Mate, Names;
    var all := arcs + {a} + {Mate(rs, a)};
    SameMirror(rs, ss);
    MateOfMate(rs, a);
    forall b | b in all ensures NamedBothWays(nodes, edges, ss, b) {
      assert b in arcs ==> NamedBothWays(nodes, edges, rs, b);
      SameMate(rs, ss, b);
    }
    forall e: nat | e < a.e + 1 ensures HasArc(nodes, edges, all, e) {
      if e == a.e {
        assert a in all;
      } else {
        assert HasArc(nodes, edges, arcs, e);
        var b :| b in arcs && b.e == e && Names(nodes, edges, b);
        assert b in all;
      }
    }
  }

  /** Attaches every edge record to the two directed edges that it stands for. */
  method AddEdges(records: array<Record>, nodes: seq<ParsedNode>, edges: seq<ParsedEdge>)
    returns (errors: nat, ghost arcs: set<Arc>)
    requires Formed(records[..]) && Holds(records[..], {}) && records.Length == |nodes|
    requires forall n: nat :: n < records.Length && records[n].reverse.Some? ==>
      records[n].reverse.value < records.Length
    modifies records
    ensures Formed(records[..]) && SameNodes(old(records[..]), records[..])
    ensures errors == 0 && Mirrored(old(records[..])) ==>
      Attached(records[..], arcs, edges) && AllNamed(nodes, edges, records[..], arcs, |edges|)
  {
    hide Holds, Lookup, Attached, Mirrored, Free, Paired, Adds, AllNamed;
    ghost var rs := records[..];
    errors := 0;
    arcs := {};
    if Mirrored(rs) { NothingAttached(rs, nodes, edges); }
    for e := 0 to |edges|
      invariant Formed(records[..]) && SameNodes(rs, records[..])
      invariant errors == 0 && Mirrored(rs) ==>
        Attached(records[..], arcs, edges) && AllNamed(nodes, edges, records[..], arcs, e)
    {
      ghost var good := errors == 0 && Mirrored(rs);
      if edges[e].dist.None? { errors := errors + 1; }
      var node1, node2 := Lookup(nodes, edges[e].node1), Lookup(nodes, edges[e].node2);
      if node1.None? { errors := errors + 1; }
      if node2.None? { errors := errors + 1; }
      if node1.Some? && node2.Some? {
        var n, m := node1.value, node2.value;
        ghost var ss := records[..];
        if good { ReversesThere(ss, arcs, edges, n); ReversesThere(ss, arcs, edges, m); }
        var more := AddEdge(records, n, m, e);
        errors := errors + more;
        if records[n].reverse.Some? && records[m].reverse.Some? {
          ghost var ts := records[..];
          more := AddEdge(records, records[m].reverse.value, records[n].reverse.value, e);
          errors := errors + more;
          if good && errors == 0 {
            BothAdded(ss, ts, records[..], arcs, Arc(n, m, e), edges);
            NamedAdded(nodes, edges, ss, records[..], arcs, Arc(n, m, e));
            arcs := arcs + {Arc(n, m, e)} + {Mate(ss, Arc(n, m, e))};
          }
        }
      }
    }
  }

  lemma NothingAttached(rs: seq<Record>, nodes: seq<ParsedNode>, edges: seq<ParsedEdge>)
    requires Formed(rs) && Mirrored(rs) && Holds(rs, {})
    ensures Attached(rs, {}, edges) && AllNamed(nodes, edges, rs, {}, 0)
  {
  }

  // ----- the finished track -----

  /** The check for missing edge data: every direction that leads somewhere has a record. */
  method CheckEdges(records: array<Record>) returns (errors: nat)
    requires Formed(records[..])
    ensures errors == 0 <==> forall n: nat :: n < records.Length ==> Complete(records[n])
  {
    errors := 0;
    for n := 0 to records.Length
      invariant errors == 0 <==> forall m: nat :: m < n ==> Complete(records[m])
    {
      ghost var before := errors;
      for d := 0 to DIRS
        invariant errors >= before
        invariant errors == before <==> forall b: nat :: b < d ==> Filled(records[n], b)
      {
        assert Filled(records[n], d) <==> (records[n].dest[d].Some? ==> records[n].edge[d].Some?);
        if records[n].dest[d].Some? && records[n].edge[d].None? { errors := errors + 1; }
      }
    }
  }

  predicate Filled(r: Record, d: nat) {
    d < |r.dest| == |r.edge| && r.dest[d].Some? ==> r.edge[d].Some?
  }

  ghost predicate Complete(r: Record) {
    forall d: nat :: d < DIRS ==> Filled(r, d)
  }

  /** Reads a track: all of it is good if there is no error. */
  method Build(nodes: seq<ParsedNode>, edges: seq<ParsedEdge>)
    returns (records: array<Record>, errors: nat, ghost arcs: set<Arc>)
    requires Shaped(nodes)
    ensures fresh(records) && records.Length == |nodes| && Formed(records[..])
    ensures errors == 0 && Mirrored(records[..]) ==> Sound(nodes, edges, records[..], arcs)
  {
    hide Lookup, Attached, Holds, Complete;
    records, errors := ResolveNames(nodes);
    ghost var rs := records[..];
    FreshRecords(nodes, rs);
    var more: nat;
    more, arcs := AddEdges(records, nodes, edges);
    errors := errors + more;
    more := CheckEdges(records);
    errors := errors + more;
    if Mirrored(records[..]) { StillMirrored(rs, records[..]); }
  }

  lemma FreshRecords(nodes: seq<ParsedNode>, rs: seq<Record>)
    requires Shaped(nodes) && |rs| == |nodes| && forall i: nat :: i < |nodes| ==> rs[i] == Resolved(nodes, nodes[i])
    ensures Formed(rs) && Holds(rs, {})
    ensures forall n: nat :: n < |rs| && rs[n].reverse.Some? ==> rs[n].reverse.value < |rs|
  {
  }

  lemma StillMirrored(rs: seq<Record>, ss: seq<Record>)
    requires SameNodes(rs, ss) && Mirrored(ss)
    ensures Mirrored(rs)
  {
    assert forall n: nat :: n < |rs| ==> ss[n].reverse == rs[n].reverse;
  }

  /** The nodes and edge records of a file in which no error was found. */
  ghost predicate Sound(nodes: seq<ParsedNode>, edges: seq<ParsedEdge>, rs: seq<Record>, arcs: set<Arc>) {
    && Shaped(nodes) && |rs| == |nodes| && Attached(rs, arcs, edges) && AllNamed(nodes, edges, rs, arcs, |edges|)
    && (forall i: nat :: i < |nodes| ==> NodeGood(nodes, i) && rs[i] == Resolved(nodes, nodes[i]).(edge := rs[i].edge))
    && forall n: nat :: n < |rs| ==> Complete(rs[n])
  }

  /** In a sound track every directed edge has exactly one partner, which leads back between the
      opposite nodes and carries the same edge record. */
  lemma EveryEdgeHasOnePartner(
    nodes: seq<ParsedNode>, edges: seq<ParsedEdge>, rs: seq<Record>, arcs: set<Arc>, u: nat, d: nat, v: nat)
    requires Sound(nodes, edges, rs, arcs) && u < |rs| && Leads(rs[u], d, v)
    ensures Formed(rs) && Mirrored(rs) && v < |rs| && rs[u].edge[d].Some? && rs[u].edge[d].value < |edges|
    ensures edges[rs[u].edge[d].value].dist.Some?
    ensures var back, home := rs[v].reverse.value, rs[u].reverse.value;
      exists b: nat ::
        && Leads(rs[back], b, home) && rs[back].edge[b] == rs[u].edge[d]
        && forall c: nat :: Leads(rs[back], c, home) ==> c == b
  {
    assert Complete(rs[u]) && Filled(rs[u], d);
    var a := Arc(u, v, rs[u].edge[d].value);
    assert a in arcs && Mate(rs, a) in arcs && HasSlot(rs, Mate(rs, a));
    var b: nat :| OnlySlot(rs, Mate(rs, a), b);
    assert Leads(rs[rs[v].reverse.value], b, rs[u].reverse.value);
  }

  /** The slot of the generated node that a direction fills. */
  function Slot(d: nat): nat {
    if d == CURVED then DIR_CURVED else DIR_AHEAD
  }

  ghost function EdgeOf(edges: seq<ParsedEdge>, r: Record, d: nat): Edge {
    if d < |r.dest| == |r.edge| && r.dest[d].Some? && r.edge[d].Some? && r.edge[d].value < |edges|
      && edges[r.edge[d].value].dist.Some?
    then Edge(r.dest[d].value, edges[r.edge[d].value].dist.value)
    else Edge(0, 0)
  }

  /** The node that is generated. */
  ghost function NodeOf(edges: seq<ParsedEdge>, p: ParsedNode, r: Record): Node {
    var kind := if p.kind.Some? then p.kind.value else Exit;
    Node(-1, kind, p.num, if r.reverse.Some? then r.reverse.value else 0,
         match kind
         case Exit => []
         case Branch => [EdgeOf(edges, r, STRAIGHT), EdgeOf(edges, r, CURVED)]
         case _ => [EdgeOf(edges, r, AHEAD)])
  }

  ghost function Generated(nodes: seq<ParsedNode>, edges: seq<ParsedEdge>, rs: seq<Record>): (t: Graph)
    requires |rs| == |nodes|
    ensures |t| == |nodes| && forall n: nat :: n < |nodes| ==> t[n] == NodeOf(edges, nodes[n], rs[n])
  {
    seq(|nodes|, n requires 0 <= n < |nodes| => NodeOf(edges, nodes[n], rs[n]))
  }

  /** The direction behind an edge of a generated node. */
  function DirOf(kind: Kind, slot: nat): nat {
    if kind != Branch then AHEAD else if slot == DIR_STRAIGHT then STRAIGHT else CURVED
  }

  /** A node of this kind has just the directions of its kind. */
  ghost predicate Fits(kind: Kind, r: Record) {
    && |r.dest| == |r.edge| == DIRS
    && (r.dest[AHEAD].Some? <==> kind != Exit && kind != Branch)
    && (r.dest[STRAIGHT].Some? <==> kind == Branch)
    && (r.dest[CURVED].Some? <==> kind == Branch)
  }

  lemma NodesFit(nodes: seq<ParsedNode>, edges: seq<ParsedEdge>, rs: seq<Record>, arcs: set<Arc>, n: nat)
    requires Sound(nodes, edges, rs, arcs) && n < |rs|
    ensures |rs| == |nodes| && nodes[n].kind.Some? && Fits(nodes[n].kind.value, rs[n])
    ensures |rs[n].dest| == |rs[n].edge| == DIRS
  {
    hide Lookup, Attached, NodeGood, Resolved, Resolve, Fits, DirsFit;
    assert NodeGood(nodes, n);
    AttachedFormed(rs, arcs, edges, n);
    ResolvedFits(nodes, n, rs[n]);
  }

  lemma AttachedFormed(rs: seq<Record>, arcs: set<Arc>, edges: seq<ParsedEdge>, n: nat)
    requires Attached(rs, arcs, edges) && n < |rs|
    ensures |rs[n].dest| == |rs[n].edge| == DIRS
  {
  }

  lemma ResolvedFits(nodes: seq<ParsedNode>, n: nat, r: Record)
    requires Shaped(nodes) && n < |nodes| && NodeGood(nodes, n) && r.dest == Resolved(nodes, nodes[n]).dest
      && |r.edge| == DIRS
    ensures nodes[n].kind.Some? && Fits(nodes[n].kind.value, r)
  {
    hide Lookup;
    assert forall name :: Known(nodes, name) ==> (Resolve(nodes, name).Some? <==> name.Some?);
  }

  lemma SlotOfDir(edges: seq<ParsedEdge>, p: ParsedNode, r: Record, d: nat, v: nat)
    requires p.kind.Some? && Fits(p.kind.value, r) && Leads(r, d, v)
    ensures var t := NodeOf(edges, p, r); Slot(d) < |t.edge| && t.edge[Slot(d)] == EdgeOf(edges, r, d)
  {
    hide EdgeOf;
  }

  lemma DirOfSlot(edges: seq<ParsedEdge>, p: ParsedNode, r: Record, slot: nat)
    requires p.kind.Some? && Fits(p.kind.value, r) && slot < |NodeOf(edges, p, r).edge|
    ensures var d := DirOf(p.kind.value, slot);
      d < DIRS && r.dest[d].Some? && Leads(r, d, r.dest[d].value) && Slot(d) == slot
      && NodeOf(edges, p, r).edge[slot] == EdgeOf(edges, r, d)
  {
    hide EdgeOf;
  }

  /** A track file without errors in which reverse is an involution gives a skew-symmetric track:
      every edge runs back between the opposite nodes with the same length. */
  lemma GeneratedTrackIsSkew(nodes: seq<ParsedNode>, edges: seq<ParsedEdge>, rs: seq<Record>, arcs: set<Arc>)
    requires Sound(nodes, edges, rs, arcs)
    ensures Skew(Generated(nodes, edges, rs))
  {
    hide Sound, NodeOf, EdgeOf, Leads, Fits;
    Reverses(nodes, edges, rs, arcs);
    var t := Generated(nodes, edges, rs);
    forall n, slot | 0 <= n < |t| && 0 <= slot < |t[n].edge| ensures HasPartner(t, n, slot) {
      NodesFit(nodes, edges, rs, arcs, n);
      DirOfSlot(edges, nodes[n], rs[n], slot);
      var d := DirOf(nodes[n].kind.value, slot);
      var v := rs[n].dest[d].value;
      PartnerIn(nodes, edges, rs, arcs, n, d, v);
    }
  }

  /** The generated nodes have the reverses of the records. */
  ghost predicate ReversesMatch(nodes: seq<ParsedNode>, rs: seq<Record>, t: Graph) {
    |rs| == |nodes| == |t|
    && forall n: nat :: n < |t| ==>
         && nodes[n].kind.Some? && rs[n].reverse == Some(t[n].reverse)
         && t[n].reverse < |t| && t[n].reverse != n && t[t[n].reverse].reverse == n
  }

  lemma Reverses(nodes: seq<ParsedNode>, edges: seq<ParsedEdge>, rs: seq<Record>, arcs: set<Arc>)
    requires Sound(nodes, edges, rs, arcs)
    ensures |rs| == |nodes| && ReversesMatch(nodes, rs, Generated(nodes, edges, rs))
  {
    hide Lookup, Attached, EdgeOf;
    AttachedMirrored(rs, arcs, edges);
    forall n: nat | n < |rs| ensures NodeGood(nodes, n) {}
  }

  lemma AttachedMirrored(rs: seq<Record>, arcs: set<Arc>, edges: seq<ParsedEdge>)
    requires Attached(rs, arcs, edges)
    ensures Mirrored(rs)
  {
  }

  /** Edge e leads from u to v, and an edge of the same length back between the opposite nodes. */
  ghost predicate PartnerOf(t: Graph, u: nat, e: Edge, v: nat) {
    && u < |t| && v < |t| && e.dest == v && t[v].reverse < |t|
    && exists b: nat :: HasEdge(t, t[v].reverse, b) && t[t[v].reverse].edge[b] == Edge(t[u].reverse, e.dist)
  }

  lemma PartnerIn(
    nodes: seq<ParsedNode>, edges: seq<ParsedEdge>, rs: seq<Record>, arcs: set<Arc>, u: nat, d: nat, v: nat)
    requires Sound(nodes, edges, rs, arcs) && u < |rs| && Leads(rs[u], d, v)
    ensures |rs| == |nodes| && PartnerOf(Generated(nodes, edges, rs), u, EdgeOf(edges, rs[u], d), v)
  {
    hide Sound, NodeOf, Fits;
    EveryEdgeHasOnePartner(nodes, edges, rs, arcs, u, d, v);
    Reverses(nodes, edges, rs, arcs);
    var t := Generated(nodes, edges, rs);
    var back, home := rs[v].reverse.value, rs[u].reverse.value;
    var b: nat :| Leads(rs[back], b, home) && rs[back].edge[b] == rs[u].edge[d];
    NodesFit(nodes, edges, rs, arcs, back);
    SlotOfDir(edges, nodes[back], rs[back], b, home);
    assert t[back].edge[Slot(b)] == Edge(home, EdgeOf(edges, rs[u], d).dist);
  }

  // ----- lengths -----

  /** The edge record gives the distance, and names the two nodes or the opposites of the two. */
  ghost predicate Measures(nodes: seq<ParsedNode>, edges: seq<ParsedEdge>, t: Graph, n: nat, to: Edge, e: nat) {
    && e < |edges| && n < |t| && to.dest < |t| && edges[e].dist == Some(to.dist)
    && var from, dest := Lookup(nodes, edges[e].node1), Lookup(nodes, edges[e].node2);
       || (from == Some(n) && dest == Some(to.dest))
       || (from == Some(t[to.dest].reverse) && dest == Some(t[n].reverse))
  }

  /** In a track file without errors each generated edge is as long as the record says that names
      its two nodes, or their opposites in the other order. */
  lemma GeneratedEdgeIsMeasured(
    nodes: seq<ParsedNode>, edges: seq<ParsedEdge>, rs: seq<Record>, arcs: set<Arc>, n: nat, slot: nat)
    returns (e: nat)
    requires Sound(nodes, edges, rs, arcs) && n < |rs| && slot < |Generated(nodes, edges, rs)[n].edge|
    ensures var t := Generated(nodes, edges, rs); Measures(nodes, edges, t, n, t[n].edge[slot], e)
  {
    hide Lookup, NodeOf, Fits, Holds, Paired, NodeGood, Resolved;
    Reverses(nodes, edges, rs, arcs);
    NodesFit(nodes, edges, rs, arcs, n);
    DirOfSlot(edges, nodes[n], rs[n], slot);
    var d := DirOf(nodes[n].kind.value, slot);
    var v := rs[n].dest[d].value;
    e := ArcOfEdge(nodes, edges, rs, arcs, n, d, v);
  }

  lemma ArcOfEdge(
    nodes: seq<ParsedNode>, edges: seq<ParsedEdge>, rs: seq<Record>, arcs: set<Arc>, n: nat, d: nat, v: nat)
    returns (e: nat)
    requires Sound(nodes, edges, rs, arcs) && n < |rs| && Leads(rs[n], d, v)
    ensures e < |edges| && edges[e].dist.Some? && EdgeOf(edges, rs[n], d) == Edge(v, edges[e].dist.value)
    ensures NamedBothWays(nodes, edges, rs, Arc(n, v, e))
  {
    hide Lookup, Names;
    assert Complete(rs[n]) && Filled(rs[n], d);
    e := rs[n].edge[d].value;
    assert Arc(n, v, e) in arcs;
  }

  /** And each record of the file has its edge, from the first node that it names to the second. */
  lemma RecordIsGenerated(
    nodes: seq<ParsedNode>, edges: seq<ParsedEdge>, rs: seq<Record>, arcs: set<Arc>, e: nat)
    returns (n: nat, slot: nat)
    requires Sound(nodes, edges, rs, arcs) && e < |edges|
    ensures n < |Generated(nodes, edges, rs)| && slot < |Generated(nodes, edges, rs)[n].edge|
    ensures var to := Generated(nodes, edges, rs)[n].edge[slot];
      && Lookup(nodes, edges[e].node1) == Some(n) && Lookup(nodes, edges[e].node2) == Some(to.dest)
      && edges[e].dist == Some(to.dist)
  {
    hide Lookup, NodeOf, Fits, NodeGood, Resolved;
    assert HasArc(nodes, edges, arcs, e);
    var a :| a in arcs && a.e == e && Names(nodes, edges, a);
    assert HasSlot(rs, a);
    var d: nat :| OnlySlot(rs, a, d);
    n, slot := a.from, Slot(d);
    NodesFit(nodes, edges, rs, arcs, n);
    SlotOfDir(edges, nodes[n], rs[n], d, a.to);
  }

  /** The direction of the file that an edge of a generated node stands for: straight and curved of a
      branch, ahead of all others. */
  ghost predicate StandsFor(p: ParsedNode, slot: nat, name: Option<string>) {
    && |p.dirs| == DIRS && p.kind.Some? && name.Some?
    && match p.kind.value
       case Exit => false
       case Branch =>
         (slot == DIR_STRAIGHT && name == p.dirs[STRAIGHT]) || (slot == DIR_CURVED && name == p.dirs[CURVED])
       case _ => slot == DIR_AHEAD && name == p.dirs[AHEAD]
  }

  /** A generated node has the kind and number of its entry, the reverse that it names, and one edge
      for each direction of its kind. */
  lemma GeneratedNodeIsNamed(
    nodes: seq<ParsedNode>, edges: seq<ParsedEdge>, rs: seq<Record>, arcs: set<Arc>, n: nat)
    requires Sound(nodes, edges, rs, arcs) && n < |rs|
    ensures nodes[n].kind.Some? && nodes[n].reverse.Some?
    ensures var p, x := nodes[n], Generated(nodes, edges, rs)[n];
      && x.kind == p.kind.value && x.num == p.num && Lookup(nodes, p.reverse.value) == Some(x.reverse)
      && |x.edge| == Degree(x.kind)
  {
    hide Sound, Lookup, NodeOf, Fits, Resolved;
    SoundSize(nodes, edges, rs, arcs);
    Reverses(nodes, edges, rs, arcs);
    RecordIs(nodes, edges, rs, arcs, n);
    NodeIs(edges, nodes[n], rs[n]);
  }

  /** ... which leads to the node named for that direction. */
  lemma GeneratedEdgeIsNamed(
    nodes: seq<ParsedNode>, edges: seq<ParsedEdge>, rs: seq<Record>, arcs: set<Arc>, n: nat, slot: nat,
    name: Option<string>)
    requires Sound(nodes, edges, rs, arcs) && n < |rs| && slot < |Generated(nodes, edges, rs)[n].edge|
    requires StandsFor(nodes[n], slot, name)
    ensures name.Some? && Lookup(nodes, name.value) == Some(Generated(nodes, edges, rs)[n].edge[slot].dest)
  {
    hide Sound, Lookup, NodeOf, Fits, Resolved, EdgeOf, StandsFor;
    SoundSize(nodes, edges, rs, arcs);
    NodesFit(nodes, edges, rs, arcs, n);
    RecordIs(nodes, edges, rs, arcs, n);
    DirOfSlot(edges, nodes[n], rs[n], slot);
    NameOfSlot(nodes[n], slot, name);
    EdgeLeads(nodes, edges, rs, arcs, n, DirOf(nodes[n].kind.value, slot));
    ResolvedDir(nodes, nodes[n], DirOf(nodes[n].kind.value, slot));
  }

  lemma SoundSize(nodes: seq<ParsedNode>, edges: seq<ParsedEdge>, rs: seq<Record>, arcs: set<Arc>)
    requires Sound(nodes, edges, rs, arcs)
    ensures |rs| == |nodes| && Shaped(nodes)
  {
  }

  lemma RecordIs(nodes: seq<ParsedNode>, edges: seq<ParsedEdge>, rs: seq<Record>, arcs: set<Arc>, n: nat)
    requires Sound(nodes, edges, rs, arcs) && n < |rs|
    ensures Shaped(nodes) && nodes[n].reverse.Some? && rs[n].reverse == Resolve(nodes, nodes[n].reverse)
    ensures rs[n].dest == Resolved(nodes, nodes[n]).dest
  {
    hide Lookup, Attached, AllNamed;
    assert NodeGood(nodes, n);
  }

  lemma NodeIs(edges: seq<ParsedEdge>, p: ParsedNode, r: Record)
    requires p.kind.Some?
    ensures var x := NodeOf(edges, p, r); x.kind == p.kind.value && x.num == p.num && |x.edge| == Degree(x.kind)
  {
  }

  lemma NameOfSlot(p: ParsedNode, slot: nat, name: Option<string>)
    requires StandsFor(p, slot, name)
    ensures |p.dirs| == DIRS && p.kind.Some? && name.Some?
    ensures DirOf(p.kind.value, slot) < DIRS && p.dirs[DirOf(p.kind.value, slot)] == name
  {
  }

  lemma ResolvedDir(nodes: seq<ParsedNode>, p: ParsedNode, d: nat)
    requires |p.dirs| == DIRS && d < DIRS && p.dirs[d].Some?
    ensures Resolved(nodes, p).dest[d] == Lookup(nodes, p.dirs[d].value)
  {
    hide Lookup;
  }

  lemma EdgeLeads(
    nodes: seq<ParsedNode>, edges: seq<ParsedEdge>, rs: seq<Record>, arcs: set<Arc>, n: nat, d: nat)
    requires Sound(nodes, edges, rs, arcs) && n < |rs| && d < DIRS && |rs[n].dest| == DIRS && rs[n].dest[d].Some?
    ensures EdgeOf(edges, rs[n], d).dest == rs[n].dest[d].value
  {
    hide Lookup, Mate;
    assert Leads(rs[n], d, rs[n].dest[d].value);
    var e := ArcOfEdge(nodes, edges, rs, arcs, n, d, rs[n].dest[d].value);
  }
}
