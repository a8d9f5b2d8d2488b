/** The track server (user/trackserver.c): who owns which node of the track. */
module Reservation {
  import opened Track

  const NO_OWNER: int := -1
  const MAX_RESERVE_SIZE: nat := 16

  datatype Reply = Success | ReserveFailSameDir | ReserveFailOppositeDir

  /** A request of task tid: `release` is given up first, then `reserve` is asked for in order. */
  datatype Request = Request(tid: int, release: seq<nat>, reserve: seq<nat>)

  predicate IsReservable(t: Graph, n: nat, tid: int)
    requires n < |t| && t[n].reverse < |t|
  {
    (t[n].owner == NO_OWNER || t[n].owner == tid) && t[t[n].reverse].owner == NO_OWNER
  }

  ghost predicate ReverseOk(t: Graph) {
    forall n: nat :: n < |t| ==> t[n].reverse < |t| && t[n].reverse != n && t[t[n].reverse].reverse == n
  }

  ghost predicate OnTrack(t: Graph, nodes: seq<nat>) {
    forall k: nat :: k < |nodes| ==> nodes[k] < |t|
  }

  ghost predicate RequestOk(t: Graph, q: Request) {
    q.tid != NO_OWNER && OnTrack(t, q.release) && OnTrack(t, q.reserve)
  }

  /** The same track but for the owners. */
  ghost predicate SameTrack(t: Graph, u: Graph) {
    |u| == |t| && forall n: nat :: n < |t| ==> u[n] == t[n].(owner := u[n].owner)
  }

  /** No node is owned together with its reverse. */
  ghost predicate Exclusive(t: Graph) {
    forall n: nat :: n < |t| && t[n].reverse < |t| && t[n].owner != NO_OWNER ==> t[t[n].reverse].owner == NO_OWNER
  }

  ghost predicate AllFree(t: Graph) {
    forall n: nat :: n < |t| ==> t[n].owner == NO_OWNER
  }

  // ----- what one request does, said without its loops -----

  /** The track with exactly these nodes given to `owner`. */
  ghost function Give(t: Graph, nodes: seq<nat>, owner: int): (u: Graph)
    ensures SameTrack(t, u)
    ensures forall n: nat :: n < |t| ==> u[n].owner == if n in nodes then owner else t[n].owner
  {
    seq(|t|, n requires 0 <= n < |t| => if n in nodes then t[n].(owner := owner) else t[n])
  }

  lemma GiveNone(t: Graph, owner: int)
    ensures Give(t, [], owner) == t
  {
  }

  lemma GiveStep(t: Graph, nodes: seq<nat>, k: nat, owner: int)
    requires k < |nodes| && OnTrack(t, nodes)
    ensures var u, n := Give(t, nodes[..k], owner), nodes[k];
      n < |u| && Give(t, nodes[..k + 1], owner) == u[n := u[n].(owner := owner)]
  {
    assert nodes[..k + 1] == nodes[..k] + [nodes[k]];
  }

  /** Every node can be reserved, and none of them is the reverse of another. */
  ghost predicate Compatible(t: Graph, tid: int, nodes: seq<nat>)
    requires ReverseOk(t) && OnTrack(t, nodes)
  {
    forall n :: n in nodes ==> IsReservable(t, n, tid) && t[n].reverse !in nodes
  }

  /** Nodes 0 to k are the longest prefix that can be reserved. */
  ghost predicate LongestPrefix(t: Graph, tid: int, nodes: seq<nat>, k: nat)
    requires ReverseOk(t) && OnTrack(t, nodes)
  {
    k <= |nodes| && Compatible(t, tid, nodes[..k]) && (k < |nodes| ==> !Compatible(t, tid, nodes[..k + 1]))
  }

  /** ... and no longer prefix can be, so there is only one such k. */
  lemma LongestPrefixIsLongest(t: Graph, tid: int, nodes: seq<nat>, k: nat, j: nat)
    requires ReverseOk(t) && OnTrack(t, nodes) && LongestPrefix(t, tid, nodes, k) && j <= |nodes|
    ensures k <= |nodes| && (Compatible(t, tid, nodes[..j]) <==> j <= k)
  {
    if j <= k {
      assert nodes[..j] <= nodes[..k];
    } else {
      assert nodes[..k + 1] <= nodes[..j];
    }
  }

  ghost function Granted(t: Graph, tid: int, nodes: seq<nat>): (k: nat)
    requires ReverseOk(t) && OnTrack(t, nodes)
    ensures LongestPrefix(t, tid, nodes, k)
  {
    LongestFrom(t, tid, nodes, 0)
  }

  ghost function LongestFrom(t: Graph, tid: int, nodes: seq<nat>, k: nat): (r: nat)
    requires ReverseOk(t) && OnTrack(t, nodes) && k <= |nodes| && Compatible(t, tid, nodes[..k])
    ensures LongestPrefix(t, tid, nodes, r)
    decreases |nodes| - k
  {
    if k < |nodes| && Compatible(t, tid, nodes[..k + 1]) then LongestFrom(t, tid, nodes, k + 1) else k
  }

  /** Another node can be reserved after a compatible prefix exactly if the longer prefix is
      compatible. */
  lemma PrefixGrows(t: Graph, tid: int, nodes: seq<nat>, k: nat)
    requires ReverseOk(t) && tid != NO_OWNER && k < |nodes| && OnTrack(t, nodes) && Compatible(t, tid, nodes[..k])
    ensures var u, n := Give(t, nodes[..k], tid), nodes[k];
      n < |u| && u[n].reverse < |u| && (IsReservable(u, n, tid) <==> Compatible(t, tid, nodes[..k + 1]))
  {
    var p, n := nodes[..k], nodes[k];
    var u := Give(t, p, tid);
    assert nodes[..k + 1] == p + [n];
    assert forall m :: m in nodes[..k + 1] <==> m in p || m == n;
    var r := t[n].reverse;
    assert u[n].reverse == r && u[r].owner == if r in p then tid else t[r].owner;
    if r in p { assert t[r].reverse == n && IsReservable(t, r, tid); }
  }

  ghost function AfterRelease(t: Graph, q: Request): Graph {
    Give(t, q.release, NO_OWNER)
  }

  ghost function Count(t: Graph, q: Request): (k: nat)
    requires ReverseOk(t) && RequestOk(t, q)
    ensures LongestPrefix(AfterRelease(t, q), q.tid, q.reserve, k)
  {
    Granted(AfterRelease(t, q), q.tid, q.reserve)
  }

  /** The track after a request: everything released is free, then the longest prefix that can
      be reserved belongs to the caller. */
  ghost function After(t: Graph, q: Request): (u: Graph)
    requires ReverseOk(t) && RequestOk(t, q)
    ensures SameTrack(t, u) && ReverseOk(u)
  {
    Give(AfterRelease(t, q), q.reserve[..Count(t, q)], q.tid)
  }

  /** What the reply says about the first node that could not be reserved. */
  ghost predicate ReplyOk(t: Graph, q: Request, reply: Reply)
    requires ReverseOk(t) && RequestOk(t, q)
  {
    var k := Count(t, q);
    if k == |q.reserve| then reply == Success
    else
      var owner := After(t, q)[q.reserve[k]].owner;
      if owner != NO_OWNER && owner != q.tid then reply == ReserveFailSameDir else reply == ReserveFailOppositeDir
  }

  // ----- the server -----

  class TrackServer {
    const track: array<Node>

    constructor (track: array<Node>)
      ensures this.track == track
    {
      this.track := track;
    }

    /** Frees the nodes one by one, whoever owns them. */
    method Release(nodes: seq<nat>)
      requires OnTrack(track[..], nodes)
      modifies track
      ensures track[..] == Give(old(track[..]), nodes, NO_OWNER)
    {
      hide Give;
      ghost var t := track[..];
      GiveNone(t, NO_OWNER);
      for i := 0 to |nodes|
        invariant track[..] == Give(t, nodes[..i], NO_OWNER)
      {
        GiveStep(t, nodes, i, NO_OWNER);
        var releaseNode := nodes[i];
        track[releaseNode] := track[releaseNode].(owner := NO_OWNER);
      }
      assert nodes[..|nodes|] == nodes;
    }

    method Reserve(tid: int, nodes: seq<nat>) returns (reply: Reply)
      requires ReverseOk(track[..]) && OnTrack(track[..], nodes) && tid != NO_OWNER
      modifies track
      ensures var k := Granted(old(track[..]), tid, nodes);
        && track[..] == Give(old(track[..]), nodes[..k], tid)
        && (k == |nodes| <==> reply == Success)
        && (k < |nodes| ==>
              (reply == ReserveFailSameDir <==> track[nodes[k]].owner != NO_OWNER && track[nodes[k]].owner != tid))
    {
      hide Give, Compatible, LongestPrefix, Granted, ReverseOk;
      ghost var t := track[..];
      ghost var longest := Granted(t, tid, nodes);
      GiveNone(t, tid);
      LongestPrefixIsLongest(t, tid, nodes, longest, 0);
      for i := 0 to |nodes|
        invariant Compatible(t, tid, nodes[..i]) && track[..] == Give(t, nodes[..i], tid)
      {
        var reserveNode := nodes[i];
        PrefixGrows(t, tid, nodes, i);
        GiveStep(t, nodes, i, tid);
        LongestPrefixIsLongest(t, tid, nodes, longest, i);
        LongestPrefixIsLongest(t, tid, nodes, longest, i + 1);
        if !IsReservable(track[..], reserveNode, tid) {
          if track[reserveNode].owner != NO_OWNER && track[reserveNode].owner != tid {
            return ReserveFailSameDir;
          } else {
            return ReserveFailOppositeDir;
          }
        }
        track[reserveNode] := track[reserveNode].(owner := tid);
      }
      LongestPrefixIsLongest(t, tid, nodes, longest, |nodes|);
      return Success;
    }

    method Serve(q: Request) returns (reply: Reply)
      requires ReverseOk(track[..]) && RequestOk(track[..], q)
      modifies track
      ensures track[..] == After(old(track[..]), q) && ReplyOk(old(track[..]), q, reply)
    {
      Release(q.release);
      reply := Reserve(q.tid, q.reserve);
    }
  }

  // ----- every request -----

  /** A request keeps a node and its reverse from being owned together. */
  lemma RequestKeepsExclusive(t: Graph, q: Request)
    requires ReverseOk(t) && RequestOk(t, q) && Exclusive(t)
    ensures Exclusive(After(t, q))
  {
    var r, k, u := AfterRelease(t, q), Count(t, q), After(t, q);
    assert Compatible(r, q.tid, q.reserve[..k]);
    forall n: nat | n < |u| && u[n].owner != NO_OWNER ensures u[u[n].reverse].owner == NO_OWNER {
      var m := u[n].reverse;
      assert u[m].reverse == n;
    }
  }

  /** Whose node n is after a request. Reserving never takes a node of another task; releasing
      frees whatever is named. */
  lemma OwnerAfter(t: Graph, q: Request, n: nat)
    requires ReverseOk(t) && RequestOk(t, q) && n < |t|
    ensures var granted, owner := q.reserve[..Count(t, q)], After(t, q)[n].owner;
      && owner == (if n in granted then q.tid else if n in q.release then NO_OWNER else t[n].owner)
      && (n in granted && t[n].owner != NO_OWNER && t[n].owner != q.tid ==> n in q.release)
      && (t[n].owner != NO_OWNER && t[n].owner != q.tid ==> (owner == t[n].owner <==> n !in q.release))
  {
    var r := AfterRelease(t, q);
    assert Compatible(r, q.tid, q.reserve[..Count(t, q)]);
    if n in q.reserve[..Count(t, q)] { assert IsReservable(r, n, q.tid); }
  }

  /** Success means that the caller owns every node it asked for, with the reverse free. */
  lemma SuccessOwnsAll(t: Graph, q: Request, n: nat)
    requires ReverseOk(t) && RequestOk(t, q) && ReplyOk(t, q, Success) && n in q.reserve
    ensures var u := After(t, q); u[n].owner == q.tid && u[u[n].reverse].owner == NO_OWNER
  {
    var r := AfterRelease(t, q);
    assert q.reserve[..|q.reserve|] == q.reserve;
    assert IsReservable(r, n, q.tid) && r[n].reverse !in q.reserve;
  }

  /** A failure names its cause: the first node refused belongs to another task, or else its
      reverse has an owner. */
  lemma FailureNamesCause(t: Graph, q: Request, reply: Reply)
    requires ReverseOk(t) && RequestOk(t, q) && ReplyOk(t, q, reply) && reply != Success
    ensures Count(t, q) < |q.reserve|
    ensures var u, n := After(t, q), q.reserve[Count(t, q)];
      if reply == ReserveFailSameDir then u[n].owner != NO_OWNER && u[n].owner != q.tid
      else (u[n].owner == NO_OWNER || u[n].owner == q.tid) && u[u[n].reverse].owner != NO_OWNER
  {
    var k, r := Count(t, q), AfterRelease(t, q);
    PrefixGrows(r, q.tid, q.reserve, k);
  }

  // ----- the design says all or nothing; the code keeps the prefix -----

  /** The first node asked for that is not the caller's. */
  function FirstForeign(t: Graph, tid: int, nodes: seq<nat>): (j: nat)
    requires OnTrack(t, nodes)
    ensures j <= |nodes| && (j < |nodes| ==> t[nodes[j]].owner != tid)
    ensures forall i: nat :: i < j ==> t[nodes[i]].owner == tid
  {
    if nodes == [] || t[nodes[0]].owner != tid then 0 else 1 + FirstForeign(t, tid, nodes[1..])
  }

  lemma ReleaseKeepsExclusive(t: Graph, q: Request)
    requires ReverseOk(t) && RequestOk(t, q) && Exclusive(t)
    ensures ReverseOk(AfterRelease(t, q)) && Exclusive(AfterRelease(t, q)) && OnTrack(AfterRelease(t, q), q.reserve)
  {
  }

  /** What the caller owns already can be reserved again, and stays as it is. */
  lemma OwnNodesAreGranted(t: Graph, tid: int, nodes: seq<nat>, j: nat)
    requires ReverseOk(t) && Exclusive(t) && tid != NO_OWNER && OnTrack(t, nodes) && j <= |nodes|
    requires forall i: nat :: i < j ==> t[nodes[i]].owner == tid
    ensures Compatible(t, tid, nodes[..j]) && Give(t, nodes[..j], tid) == t
  {
    var p, u := nodes[..j], Give(t, nodes[..j], tid);
    forall n | n in p ensures IsReservable(t, n, tid) && t[n].reverse !in p {
      assert t[n].owner == tid;
    }
    forall n: nat | n < |t| ensures u[n] == t[n] { assert u[n] == t[n].(owner := u[n].owner); }
  }

  lemma GrantTakesNothingIff(t: Graph, tid: int, nodes: seq<nat>, k: nat)
    requires ReverseOk(t) && Exclusive(t) && tid != NO_OWNER && OnTrack(t, nodes)
    requires LongestPrefix(t, tid, nodes, k) && k < |nodes|
    ensures var j := FirstForeign(t, tid, nodes);
      j < |nodes| && t[nodes[j]].reverse < |t|
      && (Give(t, nodes[..k], tid) == t <==> !IsReservable(t, nodes[j], tid))
  {
    hide Compatible, LongestPrefix, Exclusive, Give, FirstForeign;
    var j := FirstForeign(t, tid, nodes);
    OwnNodesAreGranted(t, tid, nodes, j);
    LongestPrefixIsLongest(t, tid, nodes, k, j);
    assert j < |nodes| && j <= k;
    PrefixGrows(t, tid, nodes, j);
    LongestPrefixIsLongest(t, tid, nodes, k, j + 1);
    if k > j { assert nodes[..k][j] == nodes[j]; }
  }

  /** A failed request takes nothing exactly if the first node that is not the caller's, once the
      released nodes are free, cannot be reserved. */
  lemma FailureTakesNothingIff(t: Graph, q: Request, reply: Reply)
    requires ReverseOk(t) && RequestOk(t, q) && Exclusive(t) && ReplyOk(t, q, reply) && reply != Success
    ensures var r := AfterRelease(t, q);
      var j := FirstForeign(r, q.tid, q.reserve);
      j < |q.reserve| && (After(t, q) == r <==> !IsReservable(r, q.reserve[j], q.tid))
  {
    hide Exclusive, Give, FirstForeign, Granted, IsReservable;
    ReleaseKeepsExclusive(t, q);
    GrantTakesNothingIff(AfterRelease(t, q), q.tid, q.reserve, Count(t, q));
  }

  /** Two tracks side by side, 0 and 1, with reverses 2 and 3. */
  function TwoTracks(owners: seq<int>): Graph
    requires |owners| == 4
  {
    [Node(owners[0], Sensor, 0, 2, [Edge(1, 1)]), Node(owners[1], Sensor, 1, 3, [Edge(0, 1)]),
     Node(owners[2], Sensor, 2, 0, [Edge(3, 1)]), Node(owners[3], Sensor, 3, 1, [Edge(2, 1)])]
  }

  lemma TwoTracksOk(owners: seq<int>)
    requires |owners| == 4
    ensures ReverseOk(TwoTracks(owners)) && |TwoTracks(owners)| == 4
  {
  }

  /** Node 1 belongs to task 7; task 5 asks for nodes 0 and 1, fails, and keeps node 0. */
  lemma AllOrNothingFails()
    ensures exists t, q, reply ::
      && ReverseOk(t) && RequestOk(t, q) && Exclusive(t) && ReplyOk(t, q, reply)
      && reply != Success && q.release == [] && After(t, q) != t
  {
    hide Give, Granted, ReplyOk, After, LongestPrefix, Compatible;
    var t, q := TwoTracks([-1, 7, -1, -1]), Request(5, [], [0, 1]);
    TwoTracksOk([-1, 7, -1, -1]);
    FirstOnly(AfterRelease(t, q), 5, 0, 1);
    OwnerAfter(t, q, 0);
    assert [0, 1][..1] == [0] && t[0].owner == -1;
    RepliesExist(t, q);
  }

  lemma FirstOnly(t: Graph, tid: int, m: nat, n: nat)
    requires ReverseOk(t) && m < |t| && n < |t| && IsReservable(t, m, tid) && !IsReservable(t, n, tid)
    ensures Granted(t, tid, [m, n]) == 1
  {
    hide Granted;
    var nodes, k := [m, n], Granted(t, tid, [m, n]);
    assert nodes[..1] == [m] && nodes[..2] == [m, n] && n in nodes[..2];
    LongestPrefixIsLongest(t, tid, nodes, k, 1);
    LongestPrefixIsLongest(t, tid, nodes, k, 2);
  }

  lemma RepliesExist(t: Graph, q: Request)
    requires ReverseOk(t) && RequestOk(t, q)
    ensures exists reply :: ReplyOk(t, q, reply) && (reply == Success <==> Count(t, q) == |q.reserve|)
  {
    hide After, Count;
    assert ReplyOk(t, q, Success) || ReplyOk(t, q, ReserveFailSameDir) || ReplyOk(t, q, ReserveFailOppositeDir);
  }

  /** The comment on releasing says that a node of another task is left alone; it is freed. */
  lemma ReleaseTakesFromOthers()
    ensures exists t: Graph, q: Request, n: nat ::
      && ReverseOk(t) && RequestOk(t, q) && n < |t| && t[n].owner != NO_OWNER && t[n].owner != q.tid
      && After(t, q)[n].owner == NO_OWNER
  {
    var t, q := TwoTracks([7, -1, -1, -1]), Request(5, [0], []);
    TwoTracksOk([7, -1, -1, -1]);
    OwnerAfter(t, q, 0);
  }

  // ----- every run -----

  ghost predicate RequestsOk(t: Graph, requests: seq<Request>) {
    forall q :: q in requests ==> RequestOk(t, q)
  }

  lemma SameRequests(t: Graph, u: Graph, q: Request)
    requires SameTrack(t, u) && RequestOk(t, q)
    ensures RequestOk(u, q)
  {
  }

  ghost function AfterAll(t: Graph, requests: seq<Request>): (u: Graph)
    requires ReverseOk(t) && RequestsOk(t, requests)
    ensures SameTrack(t, u) && ReverseOk(u)
  {
    if requests == [] then t
    else
      var u, q := AfterAll(t, requests[..|requests| - 1]), requests[|requests| - 1];
      SameRequests(t, u, q);
      After(u, q)
  }

  /** Over every run of requests no node and its reverse are owned at the same time. */
  lemma {:induction false} AlwaysExclusive(t: Graph, requests: seq<Request>)
    requires ReverseOk(t) && RequestsOk(t, requests) && AllFree(t)
    ensures Exclusive(AfterAll(t, requests))
  {
    if requests != [] {
      var before := requests[..|requests| - 1];
      AlwaysExclusive(t, before);
      SameRequests(t, AfterAll(t, before), requests[|requests| - 1]);
      RequestKeepsExclusive(AfterAll(t, before), requests[|requests| - 1]);
    }
  }

  /** Request i granted node n to its caller and no later request took it back. */
  ghost predicate GrantedAt(t: Graph, requests: seq<Request>, i: nat, n: nat)
    requires ReverseOk(t) && RequestsOk(t, requests) && i < |requests|
  {
    var u := AfterAll(t, requests[..i]);
    RequestOk(u, requests[i]) && n in requests[i].reserve[..Count(u, requests[i])]
  }

  ghost predicate HeldSince(t: Graph, requests: seq<Request>, i: nat, n: nat)
    requires ReverseOk(t) && RequestsOk(t, requests) && i < |requests|
  {
    GrantedAt(t, requests, i, n) && forall j :: i < j < |requests| ==> n !in requests[j].release
  }

  lemma HeldStep(t: Graph, requests: seq<Request>, i: nat, n: nat)
    requires ReverseOk(t) && RequestsOk(t, requests) && i < |requests|
    ensures HeldSince(t, requests, i, n) <==>
      if i == |requests| - 1 then GrantedAt(t, requests, i, n)
      else HeldSince(t, requests[..|requests| - 1], i, n) && n !in requests[|requests| - 1].release
  {
    hide AfterAll, RequestOk, ReverseOk, Count;
    if i < |requests| - 1 { assert requests[..|requests| - 1][..i] == requests[..i]; }
  }

  lemma OwnerStep(t: Graph, requests: seq<Request>, n: nat)
    requires ReverseOk(t) && RequestsOk(t, requests) && requests != [] && n < |t|
    ensures var last := |requests| - 1;
      var owner, q, granted := AfterAll(t, requests[..last])[n].owner, requests[last], GrantedAt(t, requests, last, n);
      && AfterAll(t, requests)[n].owner == (if granted then q.tid else if n in q.release then NO_OWNER else owner)
      && (granted && owner != NO_OWNER && owner != q.tid ==> n in q.release)
  {
    hide Count, After, AfterRelease;
    var last := |requests| - 1;
    var u := AfterAll(t, requests[..last]);
    SameRequests(t, u, requests[last]);
    OwnerAfter(u, requests[last], n);
  }

  /** At the end of a run a task owns a node exactly if some request of it was granted the node
      and no later request, whoever sent it, released it. */
  lemma {:induction false} OwnerIsLastGrant(t: Graph, requests: seq<Request>, n: nat, tid: int)
    requires ReverseOk(t) && RequestsOk(t, requests) && AllFree(t) && n < |t| && tid != NO_OWNER
    ensures AfterAll(t, requests)[n].owner == tid <==>
      exists i: nat :: i < |requests| && requests[i].tid == tid && HeldSince(t, requests, i, n)
  {
    if requests != [] {
      hide AfterAll, HeldSince, GrantedAt, ReverseOk, RequestOk;
      var last := |requests| - 1;
      var before := requests[..last];
      OwnerIsLastGrant(t, before, n, tid);
      OwnerStep(t, requests, n);
      forall i: nat | i < |requests|
        ensures HeldSince(t, requests, i, n) <==>
          if i == last then GrantedAt(t, requests, i, n) else HeldSince(t, before, i, n) && n !in requests[last].release
        ensures i < last ==> requests[i] == before[i]
      {
        HeldStep(t, requests, i, n);
      }
    }
  }

  // ----- what the owners mean to the planner -----

  /** No route of another train leaves a node that was granted. */
  lemma GrantedNodesAreAvoided(t: Graph, q: Request, src: nat, dst: nat, train: int, dirs: seq<nat>, k: nat)
    requires ReverseOk(t) && RequestOk(t, q) && train != q.tid
    requires Route(After(t, q), src, dst, train, dirs) && k < |dirs|
    ensures End(After(t, q), src, dirs[..k]) !in q.reserve[..Count(t, q)]
  {
    var n := End(After(t, q), src, dirs[..k]);
    assert Open(After(t, q), n, train);
    if n in q.reserve[..Count(t, q)] { OwnerAfter(t, q, n); }
  }

  /** Where no other train owns a node every walk is a route. */
  lemma RouteIffWalk(t: Graph, src: nat, dst: nat, train: int, dirs: seq<nat>)
    requires WellFormed(t) && forall n: nat :: n < |t| ==> t[n].owner == NO_OWNER || t[n].owner == train
    ensures Route(t, src, dst, train, dirs) <==> Walk(t, src, dirs) && End(t, src, dirs) == dst
  {
    if Walk(t, src, dirs) {
      forall k: nat | k < |dirs| ensures Open(t, End(t, src, dirs[..k]), train) {
        WalkPrefix(t, src, dirs, k);
        assert NodeOk(t, End(t, src, dirs[..k]));
      }
    }
  }
}
