/**
 Small specifications on which a drawing goes wrong (frontend/js/diagrams.js:258-460), shown for every
 drawing the contracts of DiagramLayout allow.
*/
module LayoutExamples {
  import opened LayerRanks
  import opened LaneGeometry
  import opened GroupFrames
  import opened FrameSpacing
  import opened DiagramLayout

  // ---- ranks are unique ----------------------------------------------------------------------

  /** A fixpoint that some walks realise is the ranking, and there are no cycles. */
  lemma RanksAre(g: Graph, rank: seq<nat>, h: seq<nat>)
    requires Ranked(g, rank) && Sound(g, h) && Fixpoint(g, h)
    ensures Acyclic(g) && rank == h
  {
    FixpointIsLongest(g, h);
    forall v: nat | v < g.n ensures rank[v] == h[v] {
      var p :| IsWalk(g, p) && Last(p) == v && |p| - 1 == rank[v];
      FixpointClimbs(g, h, p);
      var q :| IsWalk(g, q) && Last(q) == v && |q| - 1 == h[v];
      FixpointClimbs(g, rank, q);
    }
  }

  // ---- a sweep that covers a box and turns an edge round ------------------------------------------

  predicate IsBox(n: Node) { n.width == 184.0 && n.height == 60.0 && Unpinned(n) }

  /** Boxes a, b in one group, c in another, u outside; edges a -> b, a -> c -> u. */
  ghost predicate Sample(nodes: seq<Node>, edges: seq<Edge>) {
    && |nodes| == 4 && IsBox(nodes[0]) && IsBox(nodes[1]) && IsBox(nodes[2]) && IsBox(nodes[3])
    && nodes[0].group == nodes[1].group != nodes[2].group
    && nodes[0].group != "" && nodes[2].group != "" && nodes[3].group == ""
    && (forall i, j :: 0 <= i < j < 4 ==> nodes[i].id != nodes[j].id)
    && |edges| == 3 && edges[0] == Edge(nodes[0].id, nodes[1].id)
    && edges[1] == Edge(nodes[0].id, nodes[2].id) && edges[2] == Edge(nodes[2].id, nodes[3].id)
  }

  lemma IndexIs(nodes: seq<Node>, i: nat)
    requires i < |nodes| && forall j, k :: 0 <= j < k < |nodes| ==> nodes[j].id != nodes[k].id
    ensures nodes[i].id in IndexMap(Ids(nodes)) && IndexMap(Ids(nodes))[nodes[i].id] == i
  {
    hide IndexMap;
    assert Ids(nodes)[i] == nodes[i].id;
    var k := IndexMap(Ids(nodes))[nodes[i].id];
    assert Ids(nodes)[k] == nodes[k].id;
  }

  lemma ArcsAre(nodes: seq<Node>, edges: seq<Edge>, u: nat, v: nat)
    requires Sample(nodes, edges)
    ensures Arc(GraphOf(Ids(nodes), edges), u, v) <==> (u == 0 && v == 1) || (u == 0 && v == 2) || (u == 2 && v == 3)
  {
    hide IndexMap, Ids;
    IndexIs(nodes, 0);
    IndexIs(nodes, 1);
    IndexIs(nodes, 2);
    IndexIs(nodes, 3);
    var g := GraphOf(Ids(nodes), edges);
    assert Resolves(g, g.edges[0], 0, 1) && Resolves(g, g.edges[1], 0, 2) && Resolves(g, g.edges[2], 2, 3);
  }

  lemma TheRanks(nodes: seq<Node>, edges: seq<Edge>, rank: seq<nat>)
    requires Sample(nodes, edges) && Ranked(GraphOf(Ids(nodes), ValidEdges(Ids(nodes), edges)), rank)
    ensures |rank| == 4 && rank[0] == 0 && rank[1] == 1 && rank[2] == 1 && rank[3] == 2
    ensures Acyclic(GraphOf(Ids(nodes), edges)) && Arc(GraphOf(Ids(nodes), edges), 2, 3)
  {
    hide Sample, Arc, ValidEdges, Ids, IndexMap, Acyclic, Ranked;
    var g, h: seq<nat> := GraphOf(Ids(nodes), ValidEdges(Ids(nodes), edges)), [0, 1, 1, 2];
    SampleSize(nodes, edges);
    forall u: nat, v: nat
      ensures Arc(g, u, v) <==> (u == 0 && v == 1) || (u == 0 && v == 2) || (u == 2 && v == 3)
    {
      ArcsAre(nodes, edges, u, v);
      SameArcs(Ids(nodes), edges, u, v);
    }
    Realizes(g, [0]);
    Realizes(g, [0, 1]);
    Realizes(g, [0, 2]);
    Realizes(g, [0, 2, 3]);
    RanksAre(g, rank, h);
    SameCycles(Ids(nodes), edges);
    ArcsAre(nodes, edges, 2, 3);
  }

  lemma SampleSize(nodes: seq<Node>, edges: seq<Edge>)
    requires Sample(nodes, edges)
    ensures |nodes| == 4
  {
  }

  lemma Realizes(g: Graph, p: seq<nat>)
    requires IsWalk(g, p)
    ensures Realized(g, Last(p), |p| - 1)
  {
  }

  // ---- where the lanes put the four boxes -----------------------------------------------------------

  ghost predicate TheRanking(rank: seq<nat>) {
    |rank| == 4 && rank[0] == 0 && rank[1] == 1 && rank[2] == 1 && rank[3] == 2
  }

  ghost predicate TheLanes(lanes: seq<seq<nat>>) {
    && |lanes| == 3 && |lanes[0]| == 1 && |lanes[1]| == 2 && |lanes[2]| == 1
    && lanes[0][0] == 0 && lanes[1][0] == 1 && lanes[1][1] == 2 && lanes[2][0] == 3
  }

  lemma KeysAre(keys: seq<nat>)
    requires Ascending(keys) && (forall l :: 0 <= l < |keys| ==> keys[l] <= 2)
    requires 0 in keys && 1 in keys && 2 in keys
    ensures |keys| == 3 && keys[0] == 0 && keys[1] == 1 && keys[2] == 2
  {
    var a :| 0 <= a < |keys| && keys[a] == 0;
    var b :| 0 <= b < |keys| && keys[b] == 1;
    var c :| 0 <= c < |keys| && keys[c] == 2;
    AscendingSpread(keys, |keys| - 1);
  }

  lemma LaneIs(nodes: seq<Node>, rank: seq<nat>, r: nat)
    requires |nodes| == 4 && TheRanking(rank) && r <= 2 && forall i :: 0 <= i < 4 ==> InFlow(nodes[i])
    ensures var lane := LaneAt(nodes, rank, r, 4);
      && (r == 0 ==> |lane| == 1 && lane[0] == 0)
      && (r == 1 ==> |lane| == 2 && lane[0] == 1 && lane[1] == 2)
      && (r == 2 ==> |lane| == 1 && lane[0] == 3)
  {
    hide LaneAt;
    var lane := LaneAt(nodes, rank, r, 4);
    if r == 1 {
      OnlyTwo(lane, 1, 2);
    } else {
      OnlyOne(lane, if r == 0 then 0 else 3);
    }
  }

  lemma {:induction false} AscendingSpread(s: seq<nat>, k: nat)
    requires Ascending(s) && k < |s|
    ensures s[k] >= s[0] + k
  {
    if k > 0 {
      AscendingSpread(s, k - 1);
      assert s[k - 1] < s[k];
    }
  }

  lemma OnlyOne(lane: seq<nat>, a: nat)
    requires Ascending(lane) && a in lane && forall k :: 0 <= k < |lane| ==> lane[k] == a
    ensures |lane| == 1
  {
    AscendingSpread(lane, |lane| - 1);
  }

  lemma OnlyTwo(lane: seq<nat>, a: nat, b: nat)
    requires Ascending(lane) && a in lane && b in lane
    requires b == a + 1 && forall k :: 0 <= k < |lane| ==> lane[k] == a || lane[k] == b
    ensures |lane| == 2 && lane[0] == a && lane[1] == b
  {
    AscendingSpread(lane, |lane| - 1);
    var i :| 0 <= i < |lane| && lane[i] == a;
    var j :| 0 <= j < |lane| && lane[j] == b;
  }

  lemma LanesAre(nodes: seq<Node>, edges: seq<Edge>, rank: seq<nat>, keys: seq<nat>, lanes: seq<seq<nat>>)
    requires Sample(nodes, edges) && TheRanking(rank) && IsLanes(nodes, rank, keys, lanes)
    ensures TheLanes(lanes)
  {
    hide LaneAt;
    assert rank[0] in keys && rank[1] in keys && rank[3] in keys;
    forall l | 0 <= l < |keys| ensures keys[l] <= 2 {
      LaneMember(nodes, rank, keys, lanes, l, 0);
    }
    KeysAre(keys);
    LaneIs(nodes, rank, 0);
    LaneIs(nodes, rank, 1);
    LaneIs(nodes, rank, 2);
  }

  lemma OneBox(nodes: seq<Node>, lane: seq<nat>)
    requires |lane| == 1 && lane[0] < |nodes| && IsBox(nodes[lane[0]])
    ensures Indices(nodes, lane) && Thickness(nodes, lane, false) == 60.0 && LaneLength(nodes, lane, false) == 184.0
  {
    assert lane[..|lane| - 1] == [];
    assert LaneLength(nodes, lane, false) == TotalSide(nodes, lane, false) + GAP * (0 as real);
  }

  lemma TwoBoxes(nodes: seq<Node>, lane: seq<nat>)
    requires |lane| == 2 && lane[0] < |nodes| && lane[1] < |nodes| && IsBox(nodes[lane[0]]) && IsBox(nodes[lane[1]])
    ensures Indices(nodes, lane) && Thickness(nodes, lane, false) == 60.0 && LaneLength(nodes, lane, false) == 424.0
    ensures Cursor(nodes, lane, false, 0) == 0.0 && Cursor(nodes, lane, false, 1) == 240.0
  {
    var first := lane[..|lane| - 1];
    OneBox(nodes, first);
    assert TotalSide(nodes, first, false) == 184.0;
    assert TotalSide(nodes, lane, false) == 368.0;
    assert LaneLength(nodes, lane, false) == 368.0 + GAP * (1 as real);
    assert Cursor(nodes, lane, false, 1) == 240.0;
  }

  lemma RowsAre(nodes: seq<Node>, edges: seq<Edge>, lanes: seq<seq<nat>>)
    requires Sample(nodes, edges) && TheLanes(lanes)
    ensures AllIndices(nodes, lanes)
    ensures FlowOf(nodes, lanes, false, 0) == 60.0 && FlowOf(nodes, lanes, false, 1) == 196.0
    ensures FlowOf(nodes, lanes, false, 2) == 332.0
    ensures Centering(nodes, lanes, false, 0) == 104.0 && Centering(nodes, lanes, false, 1) == -16.0
    ensures Centering(nodes, lanes, false, 2) == 104.0
  {
    OneBox(nodes, lanes[0]);
    TwoBoxes(nodes, lanes[1]);
    OneBox(nodes, lanes[2]);
    assert AllIndices(nodes, lanes);
    GapsAre(nodes, edges, lanes);
    hide Thickness, PairGap, LaneLength;
    assert FlowBefore(nodes, lanes, false, 1) == 196.0;
    assert FlowBefore(nodes, lanes, false, 2) == 332.0;
    assert FlowBefore(nodes, lanes, false, 3) == 448.0;
  }

  lemma GapsAre(nodes: seq<Node>, edges: seq<Edge>, lanes: seq<seq<nat>>)
    requires Sample(nodes, edges) && TheLanes(lanes) && AllIndices(nodes, lanes)
    ensures PairGap(nodes, lanes, 0) == 76.0 && PairGap(nodes, lanes, 1) == 76.0 && PairGap(nodes, lanes, 2) == 56.0
  {
    assert nodes[lanes[0][0]].group != "" && nodes[lanes[1][0]].group != "";
    assert HasGroup(nodes, lanes[0]) && HasGroup(nodes, lanes[1]) && !HasGroup(nodes, lanes[2]);
  }

  /** Coordinates of the draft, up to its shift. */
  lemma DraftIs(nodes: seq<Node>, edges: seq<Edge>, d: Draft)
    requires Sample(nodes, edges) && Arranged(nodes, edges, false, d)
    ensures |d.xs| == |d.ys| == 4
    ensures d.ys[0] == 60.0 + d.dy && d.ys[1] == 196.0 + d.dy && d.ys[2] == 196.0 + d.dy && d.ys[3] == 332.0 + d.dy
    ensures d.xs[0] == 104.0 + d.dx && d.xs[1] == -16.0 + d.dx && d.xs[2] == 224.0 + d.dx && d.xs[3] == 104.0 + d.dx
  {
    hide Ranked, PinsKept, IsLanes, LaneAt, FlowOf, Centering, IsLeast, Cursor, TheLanes, TheRanking;
    TheRanks(nodes, edges, d.rank);
    RankingIs(d.rank);
    LanesAre(nodes, edges, d.rank, d.keys, d.lanes);
    RowsAre(nodes, edges, d.lanes);
    LanesList(d.lanes);
    OneBox(nodes, d.lanes[0]);
    TwoBoxes(nodes, d.lanes[1]);
    OneBox(nodes, d.lanes[2]);
    BoxAt(nodes, d, 0, 0);
    BoxAt(nodes, d, 1, 0);
    BoxAt(nodes, d, 1, 1);
    BoxAt(nodes, d, 2, 0);
    FirstCursor(nodes, d.lanes[0]);
    FirstCursor(nodes, d.lanes[2]);
  }

  lemma RankingIs(rank: seq<nat>)
    requires |rank| == 4 && rank[0] == 0 && rank[1] == 1 && rank[2] == 1 && rank[3] == 2
    ensures TheRanking(rank)
  {
  }

  lemma LanesList(lanes: seq<seq<nat>>)
    requires TheLanes(lanes)
    ensures |lanes| == 3 && |lanes[0]| == 1 && |lanes[1]| == 2 && |lanes[2]| == 1
    ensures lanes[0][0] == 0 && lanes[1][0] == 1 && lanes[1][1] == 2 && lanes[2][0] == 3
  {
  }

  lemma FirstCursor(nodes: seq<Node>, lane: seq<nat>)
    requires Indices(nodes, lane)
    ensures Cursor(nodes, lane, false, 0) == 0.0
  {
  }

  lemma BoxAt(nodes: seq<Node>, d: Draft, l: nat, k: nat)
    requires Laid(nodes, d.rank, d.keys, d.lanes, false, d.ys, d.xs, d.dy, d.dx)
    requires l < |d.lanes| && k < |d.lanes[l]| && d.lanes[l][k] < |nodes| && Unpinned(nodes[d.lanes[l][k]])
    ensures |d.xs| == |d.ys| == |nodes| && AllIndices(nodes, d.lanes)
    ensures d.ys[d.lanes[l][k]] == FlowOf(nodes, d.lanes, false, l) + d.dy
    ensures d.xs[d.lanes[l][k]] == Cursor(nodes, d.lanes[l], false, k) + (Centering(nodes, d.lanes, false, l) + d.dx)
  {
    hide Cursor, Centering, FlowOf, IsRankLane, Follows, LaneAt;
    LaidRows(nodes, d.rank, d.keys, d.lanes, false, d.ys, d.xs, d.dy, d.dx, l);
  }

  // ---- what the sweep does to them ---------------------------------------------------------------------

  function TwoGroups(nodes: seq<Node>): seq<string>
    requires |nodes| == 4
  {
    [nodes[0].group, nodes[2].group]
  }

  lemma IdsOfFrames(nodes: seq<Node>, edges: seq<Edge>)
    requires Sample(nodes, edges)
    ensures FrameIds(nodes, TwoGroups(nodes)) == TwoGroups(nodes)
  {
    var groups := TwoGroups(nodes);
    assert Member(nodes, groups[0], 0) && Member(nodes, groups[1], 2);
    assert groups[..1] == [groups[0]] && groups[..1][..0] == [];
    assert FrameIds(nodes, groups[..1][..0]) == [];
    assert FrameIds(nodes, groups[..1]) == [groups[0]];
  }

  ghost predicate TheFrames(frames: seq<Frame>, dx: real, dy: real) {
    && |frames| == 2
    && frames[0].y == 20.0 + dy && frames[0].height == 254.0
    && frames[0].x == -32.0 + dx && frames[0].width == 336.0
    && frames[1].y == 156.0 + dy && frames[1].x == 208.0 + dx && frames[1].width == 216.0
  }

  lemma FramesAre(nodes: seq<Node>, edges: seq<Edge>, d: Draft)
    requires Sample(nodes, edges) && Arranged(nodes, edges, false, d) && Grouped(nodes, TwoGroups(nodes), d)
    ensures TheFrames(d.frames, d.dx, d.dy) && d.frames[1].id == nodes[2].group
  {
    hide Arranged, FrameIds;
    DraftIs(nodes, edges, d);
    IdsOfFrames(nodes, edges);
    assert Wraps(nodes, d.xs, d.ys, d.frames[0]) && Wraps(nodes, d.xs, d.ys, d.frames[1]);
    assert Member(nodes, d.frames[0].id, 0) && Member(nodes, d.frames[0].id, 1) && Member(nodes, d.frames[1].id, 2);
  }

  lemma OrderIs(frames: seq<Frame>, order: seq<nat>)
    requires |frames| == 2 && Main(frames[0], false) < Main(frames[1], false)
    requires Sorted(frames, false, order) && forall i: nat :: i in order <==> i < 2
    ensures |order| == 2 && order[0] == 0 && order[1] == 1
  {
    assert 0 in order && 1 in order;
    assert forall k :: 0 <= k < |order| ==> order[k] in order;
    Pigeonhole(order, 2);
    var a :| 0 <= a < |order| && order[a] == 0;
    var b :| 0 <= b < |order| && order[b] == 1;
    assert a < b;
  }

  lemma SecondTurn(nodes: seq<Node>, order: seq<nat>, s: Swept)
    requires |s.flows| == |nodes| && |s.frames| == 2 && |order| == 2 && order[0] == 0 && order[1] == 1
    ensures Sweep(nodes, false, order, s, 2) == SweepStep(nodes, false, order, s, 1)
  {
    assert Deficit(s.frames, false, order, 0) == 0.0;
    StayPut(nodes, false, s.frames, 0, s.flows);
    assert Sweep(nodes, false, order, s, 1) == s;
  }

  /**
   The sweep pushes box c down onto box u: the two overlap, and the edge from c to u, in a drawing of an
   acyclic graph, starts and ends on one level.
  */
  lemma SweptOntoBox(nodes: seq<Node>, edges: seq<Edge>, d: Draft, r: Swept)
    requires Sample(nodes, edges) && Arranged(nodes, edges, false, d) && Grouped(nodes, TwoGroups(nodes), d)
    requires SweptFrom(nodes, false, d, r)
    ensures |r.flows| == |d.xs| == 4 && r.flows[2] == r.flows[3]
    ensures !Distant(nodes, r.flows, d.xs, false, 0.0, 2, 3)
    ensures Acyclic(GraphOf(Ids(nodes), edges)) && Arc(GraphOf(Ids(nodes), edges), 2, 3)
    ensures !Before(r.flows[2], FlowSize(nodes[2], false), r.flows[3])
  {
    hide Acyclic, Arc, Ids, SweptFrom, TheFrames, Grouped, Arranged, Sample;
    SampleSize(nodes, edges);
    ArrangedRanks(nodes, edges, d);
    TheRanks(nodes, edges, d.rank);
    DraftIs(nodes, edges, d);
    FramesAre(nodes, edges, d);
    SweptFlows(nodes, d, r);
    SampleGroups(nodes, edges);
  }

  lemma ArrangedRanks(nodes: seq<Node>, edges: seq<Edge>, d: Draft)
    requires Arranged(nodes, edges, false, d)
    ensures Ranked(GraphOf(Ids(nodes), ValidEdges(Ids(nodes), edges)), d.rank)
  {
  }

  lemma SampleGroups(nodes: seq<Node>, edges: seq<Edge>)
    requires Sample(nodes, edges)
    ensures |nodes| == 4 && nodes[2].group != nodes[3].group && IsBox(nodes[2]) && IsBox(nodes[3])
  {
  }

  lemma SweptFlows(nodes: seq<Node>, d: Draft, r: Swept)
    requires |nodes| == 4 && TheFrames(d.frames, d.dx, d.dy) && SweptFrom(nodes, false, d, r)
    ensures r.flows == MoveMembers(nodes, d.frames[1].id, d.ys, 136.0, 4)
  {
    hide Sweep, Deficit, MoveMembers;
    var s := Swept(d.frames, d.ys);
    var order: seq<nat> :| Sorted(d.frames, false, order) && (forall i: nat :: i in order <==> i < |d.frames|)
      && r == Sweep(nodes, false, order, s, |order|);
    OrderIs(d.frames, order);
    SecondTurn(nodes, order, s);
    PushIs(d.frames, order, d.dx, d.dy);
  }

  /** How far the second frame has to go. */
  lemma PushIs(frames: seq<Frame>, order: seq<nat>, dx: real, dy: real)
    requires TheFrames(frames, dx, dy) && |order| == 2 && order[0] == 0 && order[1] == 1
    ensures Deficit(frames, false, order, 1) == 136.0
  {
    assert CrossOverlap(frames[0], frames[1], false) == 96.0;
    assert ClearStart(frames, false, order, frames[1], 0) == 156.0 + dy;
    assert ClearStart(frames, false, order, frames[1], 1) == 292.0 + dy;
  }

  function Box(id: string, group: string): Node { Node(id, group, 184.0, 60.0, Free, Free) }

  lemma IsSample(nodes: seq<Node>, edges: seq<Edge>)
    requires nodes == [Box("a", "g"), Box("b", "g"), Box("c", "h"), Box("u", "")]
    requires edges == [Edge("a", "b"), Edge("a", "c"), Edge("c", "u")]
    ensures Sample(nodes, edges) && TwoGroups(nodes) == ["g", "h"]
  {
    assert nodes[0].group[0] == 'g' && nodes[2].group[0] == 'h';
    assert nodes[0].id[0] == 'a' && nodes[1].id[0] == 'b' && nodes[2].id[0] == 'c' && nodes[3].id[0] == 'u';
  }

  /** One such specification, drawn. */
  method DrawSample() returns (picture: Picture)
    ensures picture.Valid() && |picture.nodes| == 4
    ensures !Distant(picture.nodes, picture.Flows(), picture.Sides(), picture.horizontal, 0.0, 2, 3)
  {
    var nodes := [Box("a", "g"), Box("b", "g"), Box("c", "h"), Box("u", "")];
    var edges := [Edge("a", "b"), Edge("a", "c"), Edge("c", "u")];
    IsSample(nodes, edges);
    picture := Draw(nodes, edges);
  }

  method Draw(nodes: seq<Node>, edges: seq<Edge>) returns (picture: Picture)
    requires Sample(nodes, edges)
    ensures picture.Valid() && picture.nodes == nodes && |nodes| == 4
    ensures !Distant(picture.nodes, picture.Flows(), picture.Sides(), picture.horizontal, 0.0, 2, 3)
  {
    hide Arranged, Grouped, SweptFrom, Framed, Spaced, Layered, Readable, Untangled, AllClear, FrameIds, Distant;
    var width, height;
    ghost var draft;
    picture, width, height, draft := ComputeLayout(nodes, edges, TwoGroups(nodes), false);
    SweptOntoBox(nodes, edges, draft, Swept(picture.frames, picture.Flows()));
  }

  // ---- group ids that are empty or repeated -------------------------------------------------------------

  lemma OneId(nodes: seq<Node>, id: string)
    requires |nodes| == 1 && nodes[0].group == id
    ensures FrameIds(nodes, [id]) == [id] && FrameIds(nodes, [id, id]) == [id, id]
  {
    assert Member(nodes, id, 0);
    assert [id, id][..1] == [id] && [id][..0] == [];
    assert FrameIds(nodes, [id][..0]) == [];
    assert FrameIds(nodes, [id, id][..1]) == [id];
  }

  /**
   A group with the empty id frames an ungrouped box, and its frame breaks the canvas margin. The drawing
   tool refuses such an id (src/tools/diagram.rs:169-179, 389-395), so it takes another caller of `computeLayout`.
  */
  lemma EmptyGroupId(horizontal: bool, xs: seq<real>, ys: seq<real>, frames: seq<Frame>, width: real, height: real)
    requires Framed([Box("a", "")], [""], horizontal, xs, ys, frames, width, height)
    ensures |frames| == 1 && !FramesInside(frames, width, height)
  {
    var nodes := [Box("a", "")];
    OneId(nodes, "");
    assert nodes[0].group == "" && !AnyGrouped(nodes);
  }

  /** A group listed twice: one of its two frames is off the box it is meant to wrap. */
  lemma RepeatedGroupId(horizontal: bool, xs: seq<real>, ys: seq<real>, frames: seq<Frame>, width: real, height: real)
    requires Framed([Box("a", "g")], ["g", "g"], horizontal, xs, ys, frames, width, height)
    ensures |frames| == 2 && !AllWrap([Box("a", "g")], xs, ys, frames)
  {
    OneId([Box("a", "g")], "g");
    assert FrameIds([Box("a", "g")], ["g", "g"])[0] == FrameIds([Box("a", "g")], ["g", "g"])[1];
  }
}
